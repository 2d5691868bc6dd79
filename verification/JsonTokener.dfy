/** `json_tokener_parse_ex` as it is written: one loop, batched inner loops, fields updated in place. */
module JsonTokener {
  import opened CTypes
  import opened JsonValue
  import opened Decimal
  import opened Tokener
  import opened PrintBuf

  // ----- runs, seen from the character they have reached

  /** From `t` at character `k` of `text`, the call ends with `o`. */
  predicate Runs(t: Tok, text: string, k: nat, o: Outcome) {
    Inv(t) && k <= |text| && Run(t, text[k..]) == o
  }

  lemma {:induction false} RunsEnd(t: Tok, text: string, o: Outcome)
    requires Runs(t, text, |text|, o)
    ensures o == Outcome(t, EndOfText(t), 0)
  {
  }

  lemma {:induction false} RunsRedo(t: Tok, text: string, k: nat, o: Outcome)
    requires Runs(t, text, k, o) && k < |text| && Dispatch(t, text[k]).move.Redo?
    ensures Runs(Step(t, text[k]), text, k, o)
  {
    StepKeepsInv(t, text[k]);
  }

  lemma {:induction false} RunsAdvance(t: Tok, text: string, k: nat, o: Outcome)
    requires Runs(t, text, k, o) && k < |text| && Dispatch(t, text[k]).move.Advance?
    ensures Advanced(Step(t, text[k]), text, k, o)
  {
    StepKeepsInv(t, text[k]);
    assert text[k..][1..] == text[k + 1..];
  }

  lemma {:induction false} RunsOut(t: Tok, text: string, k: nat, o: Outcome)
    requires Runs(t, text, k, o) && k < |text| && Dispatch(t, text[k]).move.Out?
    ensures o == Outcome(Step(t, text[k]), CheckEof(Step(t, text[k]), text[k], Dispatch(t, text[k]).move.err),
      |text| - k)
  {
  }

  /** Character `k` has been dealt with but not yet counted. */
  predicate Advanced(t: Tok, text: string, k: nat, o: Outcome) {
    && Inv(t) && k < |text|
    && (text[k] == NUL ==> o == Outcome(t, CheckEof(t, NUL, Success), |text| - k - 1))
    && (text[k] != NUL ==> Runs(t, text, k + 1, o))
  }

  /** The switch was left by `move` after looking at `c`, which is character `k`. */
  predicate Left(move: Move, t: Tok, text: string, k: nat, c: char, err: Error, o: Outcome) {
    match move
    case Redo => err == Success && k < |text| && c == text[k] && Runs(t, text, k, o)
    case Advance => err == Success && k < |text| && c == text[k] && Advanced(t, text, k, o)
    case Out(_) => k <= |text| && o == Outcome(t, CheckEof(t, c, err), |text| - k)
  }

  lemma {:induction false} StepLeft(t: Tok, text: string, k: nat, o: Outcome)
    requires Runs(t, text, k, o) && k < |text|
    ensures var move := Dispatch(t, text[k]).move;
      Left(move, Step(t, text[k]), text, k, text[k], if move.Out? then move.err else Success, o)
  {
    match Dispatch(t, text[k]).move
    case Redo => RunsRedo(t, text, k, o);
    case Advance => RunsAdvance(t, text, k, o);
    case Out(_) => RunsOut(t, text, k, o);
  }

  /** The text of a call: `len` characters, or a C string up to and with its terminator. */
  predicate Window(text: string, len: int) {
    len == |text| || (len == -1 && text != "" && text[|text| - 1] == NUL)
  }

  // ----- the batched loops

  /** The characters the batched loop of state `s` passes over. */
  predicate Skips(s: State, quote: char, c: char) {
    match s
    case Eatws => IsSpace(c)
    case Comment => c != '*'
    case CommentEol => c != '\n'
    case String | ObjectField => c != quote && c != '\\'
    case Number => IsNumberChar(c)
    case _ => false
  }

  predicate MarksDouble(s: State, text: string) {
    s == Number && DoubleMark(text)
  }

  /** The tokener after a batch: white space is dropped, everything else is appended in one piece. */
  function Skipped(t: Tok, batch: string): Tok {
    if t.top.state == Eatws then t
    else t.(pb := t.pb + batch, isDouble := t.isDouble || MarksDouble(t.top.state, batch))
  }

  lemma {:induction false} SkipOne(t: Tok, batch: string, c: char)
    requires Skips(t.top.state, t.quote, c)
    ensures Dispatch(Skipped(t, batch), c).move.Advance?
    ensures Step(Skipped(t, batch), c) == Skipped(t, batch + [c])
  {
    assert t.pb + batch + [c] == t.pb + (batch + [c]);
    assert forall x :: x in batch + [c] <==> x in batch || x == c;
  }

  /** A batch without a terminator takes the run to where one step per character takes it. */
  lemma {:induction false} SkipRuns(t: Tok, text: string, start: nat, k: nat, o: Outcome)
    requires start <= k <= |text| && Runs(t, text, start, o)
    requires forall i :: start <= i < k ==> Skips(t.top.state, t.quote, text[i]) && text[i] != NUL
    ensures Runs(Skipped(t, text[start..k]), text, k, o)
    decreases k
  {
    hide Run, Inv, Dispatch, Step;
    if start < k {
      SkipRuns(t, text, start, k - 1, o);
      SkipOne(t, text[start..k - 1], text[k - 1]);
      RunsAdvance(Skipped(t, text[start..k - 1]), text, k - 1, o);
      assert text[start..k - 1] + [text[k - 1]] == text[start..k];
    } else {
      assert t.pb + text[start..k] == t.pb;
    }
  }

  /** A batch that ends with the terminator or the text ends the call. */
  lemma {:induction false} SkipLeaves(t: Tok, text: string, start: nat, k: nat, o: Outcome)
    requires start < k <= |text| && Runs(t, text, start, o) && (k == |text| || text[k - 1] == NUL)
    requires forall i :: start <= i < k ==> Skips(t.top.state, t.quote, text[i])
    requires forall i :: start <= i < k - 1 ==> text[i] != NUL
    ensures var u := Skipped(t, text[start..k]);
      var err := if text[k - 1] == NUL then Success else EndOfText(t);
      Left(Out(err), u, text, k, text[k - 1], err, o)
  {
    SkipRuns(t, text, start, k - 1, o);
    var u := Skipped(t, text[start..k - 1]);
    SkipOne(t, text[start..k - 1], text[k - 1]);
    RunsAdvance(u, text, k - 1, o);
    assert text[start..k - 1] + [text[k - 1]] == text[start..k];
    if text[k - 1] != NUL {
      RunsEnd(Step(u, text[k - 1]), text, o);
    }
  }

  /** A character that was dealt with but is the last one ends the call. */
  lemma {:induction false} AdvancedLeaves(t: Tok, text: string, k: nat, o: Outcome)
    requires Advanced(t, text, k, o) && (text[k] == NUL || k + 1 == |text|)
    ensures var err := if text[k] == NUL then Success else EndOfText(t);
      Left(Out(err), t, text, k + 1, text[k], err, o)
  {
    if text[k] != NUL {
      RunsEnd(t, text, o);
    }
  }

  /** The states in which the source reads the buffer as a C string or appends to it. */
  predicate Collecting(s: State) {
    s == NullWord || s == Boolean || s == Number || s == String || s == ObjectField
      || s == StringEscape || s == EscapeUnicode
  }

  /** The states with a batched inner loop over plain characters. */
  predicate Batched(s: State) {
    s == Eatws || s == Comment || s == CommentEol || s == String || s == ObjectField || s == Number
  }

  class JsonTokener {
    const pb: PrintBuf
    const stack: array<Level>
    var depth: int
    var isDouble: bool
    var stPos: nat
    var charOffset: nat
    var err: Error
    var ucs: nat
    var quote: char

    ghost predicate Valid()
      reads this, pb, pb.buf, stack
    {
      && stack.Length == MAX_DEPTH && 0 <= depth < MAX_DEPTH && pb.Valid()
      && (Collecting(stack[depth].state) ==> pb.Terminated())
    }

    /** The state of the machine; `obj` is the local variable of that name. */
    ghost function Abs(obj: Json): Tok
      reads this, pb, pb.buf, stack
      requires Valid()
    {
      Tok(stack[..depth], stack[depth], obj, pb.Contents(), stPos, ucs, quote, isDouble)
    }

    /** `json_tokener_new`. */
    constructor ()
      ensures Valid() && fresh(pb) && fresh(pb.buf) && fresh(stack)
      ensures Abs(Null) == NEW
    {
      pb := new PrintBuf();
      stack := new Level[MAX_DEPTH](_ => FRESH);
      depth := 0;
      isDouble := false;
      stPos, charOffset, ucs := 0, 0, 0;
      err := Success;
      quote := NUL;
    }

    /** `json_tokener_reset`: every level in use is reset from the top down. */
    method Reset()
      requires Valid()
      modifies this`depth, this`err, stack
      ensures Valid() && err == Success && depth == 0
      ensures Abs(Null) == old(Abs(Null)).(below := [], top := FRESH)
      ensures forall i :: 0 <= i <= old(depth) ==> stack[i] == FRESH
    {
      var i := depth;
      while i >= 0
        invariant depth == old(depth) && -1 <= i <= depth
        invariant forall j :: i < j <= depth ==> stack[j] == FRESH
      {
        stack[i] := FRESH;
        i := i - 1;
      }
      depth := 0;
      err := Success;
    }

    method SetTop(l: Level, ghost obj: Json)
      requires Valid() && (Collecting(l.state) ==> pb.Terminated())
      modifies stack
      ensures Valid() && Abs(obj) == old(Abs(obj)).(top := l)
    {
      stack[depth] := l;
      assert stack[..depth] == old(stack[..depth]);
    }

    /** Begin a token: the buffer is reset. */
    method Begin(s: State, ghost obj: Json)
      requires Valid()
      modifies stack, pb, pb.buf
      ensures Valid() && pb.buf == old(pb.buf)
      ensures Abs(obj) == old(Abs(obj)).Goto(s).(pb := "")
    {
      pb.Reset();
      SetTop(stack[depth].(state := s), obj);
    }

    /** Append to the buffer and go on in `l`. */
    method AppendGo(s: string, l: Level, ghost obj: Json)
      requires Valid()
      modifies stack, pb, pb.buf
      ensures Valid() && (pb.buf == old(pb.buf) || fresh(pb.buf))
      ensures Abs(obj) == old(Abs(obj)).Append(s).(top := l)
    {
      pb.AppendFast(s);
      SetTop(l, obj);
    }

    // ----- states that look at one character

    /** The first character of a literal or a number. */
    method OnLiteral(c: char, ghost obj: Json) returns (move: Move)
      requires Valid() && stack[depth].state == Start
      requires c != '{' && c != '[' && c != '"' && c != '\''
      modifies this`isDouble, this`stPos, this`quote, this`ucs, this`err, stack, pb, pb.buf
      ensures Valid() && (pb.buf == old(pb.buf) || fresh(pb.buf))
      ensures Abs(obj) == Step(old(Abs(obj)), c) && move == Dispatch(old(Abs(obj)), c).move
      ensures err == if move.Out? then move.err else old(err)
    {
      if c == 'N' || c == 'n' {
        stPos := 0;
        Begin(NullWord, obj);
      } else if c == 'T' || c == 't' || c == 'F' || c == 'f' {
        stPos := 0;
        Begin(Boolean, obj);
      } else if IsDigit(c) || c == '-' {
        isDouble := false;
        Begin(Number, obj);
      } else {
        err := Unexpected;
        return Out(Unexpected);
      }
      move := Redo;
    }

    method OnStart(c: char, ghost obj: Json) returns (move: Move)
      requires Valid() && stack[depth].state == Start
      modifies this`isDouble, this`stPos, this`quote, this`ucs, this`err, stack, pb, pb.buf
      ensures Valid() && (pb.buf == old(pb.buf) || fresh(pb.buf))
      ensures Abs(obj) == Step(old(Abs(obj)), c) && move == Dispatch(old(Abs(obj)), c).move
      ensures err == if move.Out? then move.err else old(err)
    {
      var l := stack[depth];
      move := Advance;
      if c == '{' {
        SetTop(Level(Eatws, ObjectFieldStart, Obj([]), l.field), obj);
      } else if c == '[' {
        SetTop(Level(Eatws, Array, Arr([]), l.field), obj);
      } else if c == '"' || c == '\'' {
        quote := c;
        Begin(String, obj);
      } else {
        move := OnLiteral(c, obj);
      }
    }

    method OnWord(c: char, ghost obj: Json) returns (move: Move)
      requires Valid() && (stack[depth].state == NullWord || stack[depth].state == Boolean)
      modifies this`isDouble, this`stPos, this`quote, this`ucs, this`err, stack, pb, pb.buf
      ensures Valid() && (pb.buf == old(pb.buf) || fresh(pb.buf))
      ensures Abs(obj) == Step(old(Abs(obj)), c) && move == Dispatch(old(Abs(obj)), c).move
      ensures err == if move.Out? then move.err else old(err)
    {
      var l := stack[depth];
      AppendGo([c], l, obj);
      var buf := pb.buf[..pb.bpos];
      if l.state == NullWord && MatchesWord("null", buf, stPos) {
        if stPos == 4 {
          SetTop(Level(Eatws, Finish, Null, l.field), obj);
          return Redo;
        }
      } else if l.state == Boolean && MatchesWord("true", buf, stPos) {
        if stPos == 4 {
          SetTop(Level(Eatws, Finish, Bool(true), l.field), obj);
          return Redo;
        }
      } else if l.state == Boolean && MatchesWord("false", buf, stPos) {
        if stPos == 5 {
          SetTop(Level(Eatws, Finish, Bool(false), l.field), obj);
          return Redo;
        }
      } else {
        err := if l.state == NullWord then NullExpected else BooleanExpected;
        return Out(err);
      }
      stPos := stPos + 1;
      move := Advance;
    }

    method OnEscape(c: char, ghost obj: Json) returns (move: Move)
      requires Valid() && stack[depth].state == StringEscape
      requires stack[depth].saved == String || stack[depth].saved == ObjectField
      modifies this`isDouble, this`stPos, this`quote, this`ucs, this`err, stack, pb, pb.buf
      ensures Valid() && (pb.buf == old(pb.buf) || fresh(pb.buf))
      ensures Abs(obj) == Step(old(Abs(obj)), c) && move == Dispatch(old(Abs(obj)), c).move
      ensures err == if move.Out? then move.err else old(err)
    {
      var l := stack[depth];
      move := Advance;
      if SimpleEscape(c).Some? {
        AppendGo([SimpleEscape(c).value], l.(state := l.saved), obj);
      } else if c == 'u' {
        ucs := 0;
        stPos := 0;
        SetTop(l.(state := EscapeUnicode), obj);
      } else {
        err := BadString;
        move := Out(BadString);
      }
    }

    method OnCommentMark(c: char, ghost obj: Json) returns (move: Move)
      requires Valid() && (stack[depth].state == CommentStart || stack[depth].state == CommentEnd)
      modifies this`isDouble, this`stPos, this`quote, this`ucs, this`err, stack, pb, pb.buf
      ensures Valid() && (pb.buf == old(pb.buf) || fresh(pb.buf))
      ensures Abs(obj) == Step(old(Abs(obj)), c) && move == Dispatch(old(Abs(obj)), c).move
      ensures err == if move.Out? then move.err else old(err)
    {
      assert Dispatch(Abs(obj), c) == InComment(Abs(obj), c);
      hide Dispatch;
      var l := stack[depth];
      move := Advance;
      if l.state == CommentEnd {
        AppendGo([c], l.(state := if c == '/' then Eatws else Comment), obj);
      } else if c == '*' || c == '/' {
        AppendGo([c], l.(state := if c == '*' then Comment else CommentEol), obj);
      } else {
        err := BadComment;
        move := Out(BadComment);
      }
    }

    /** After an item or a field value: a comma or the closing bracket. */
    method OnSeparator(c: char, ghost obj: Json) returns (move: Move)
      requires Valid() && (stack[depth].state == ArraySep || stack[depth].state == ObjectSep)
      modifies this`isDouble, this`stPos, this`quote, this`ucs, this`err, stack, pb, pb.buf
      ensures Valid() && (pb.buf == old(pb.buf) || fresh(pb.buf))
      ensures Abs(obj) == Step(old(Abs(obj)), c) && move == Dispatch(old(Abs(obj)), c).move
      ensures err == if move.Out? then move.err else old(err)
    {
      var l := stack[depth];
      var inArray := l.state == ArraySep;
      move := Advance;
      if c == (if inArray then ']' else '}') {
        SetTop(l.(state := Eatws, saved := Finish), obj);
      } else if c == ',' {
        SetTop(l.(state := Eatws, saved := if inArray then Array else ObjectFieldStart), obj);
      } else {
        err := if inArray then ArraySeparator else ValueSeparator;
        move := Out(err);
      }
    }

    /** Before and after the name of a field. */
    method OnKey(c: char, ghost obj: Json) returns (move: Move)
      requires Valid() && stack[depth].state == ObjectFieldStart
      modifies this`quote, stack, pb, pb.buf, this`err
      ensures Valid() && pb.buf == old(pb.buf)
      ensures Abs(obj) == Step(old(Abs(obj)), c) && move == Dispatch(old(Abs(obj)), c).move
      ensures err == if move.Out? then move.err else old(err)
    {
      assert Dispatch(Abs(obj), c) == InKey(Abs(obj), c);
      hide Dispatch;
      move := Advance;
      if c == '}' {
        SetTop(stack[depth].(state := Eatws, saved := Finish), obj);
      } else if c == '"' || c == '\'' {
        quote := c;
        Begin(ObjectField, obj);
      } else {
        err := KeyName;
        move := Out(err);
      }
    }

    method OnColon(c: char, ghost obj: Json) returns (move: Move)
      requires Valid() && stack[depth].state == ObjectFieldEnd
      modifies this`err, stack
      ensures Valid()
      ensures Abs(obj) == Step(old(Abs(obj)), c) && move == Dispatch(old(Abs(obj)), c).move
      ensures err == if move.Out? then move.err else old(err)
    {
      move := Advance;
      if c == ':' {
        SetTop(stack[depth].(state := Eatws, saved := ObjectValue), obj);
      } else {
        err := KeySeparator;
        move := Out(err);
      }
    }

    // ----- states that move between levels

    /** An array item or a field value begins: the level above is reset. */
    method OnOpen(c: char, ghost obj: Json) returns (move: Move)
      requires Valid() && (stack[depth].state == ObjectValue || stack[depth].state == Array)
      modifies this`depth, this`err, stack
      ensures Valid()
      ensures Abs(obj) == Step(old(Abs(obj)), c) && move == Dispatch(old(Abs(obj)), c).move
      ensures err == if move.Out? then move.err else old(err)
    {
      assert Dispatch(Abs(obj), c) ==
        if stack[depth].state == Array then InArray(Abs(obj), c) else InValue(Abs(obj), c);
      hide Dispatch;
      var l := stack[depth];
      if l.state == Array && c == ']' {
        SetTop(l.(state := Eatws, saved := Finish), obj);
        move := Advance;
      } else if depth >= MAX_DEPTH - 1 {
        err := TooDeep;
        move := Out(TooDeep);
      } else {
        SetTop(l.(state := if l.state == Array then ArrayAdd else ObjectValueAdd), obj);
        depth := depth + 1;
        stack[depth] := FRESH;
        assert stack[..depth] == old(stack[..depth]) + [stack[depth - 1]];
        move := Redo;
      }
    }

    /** A level is finished: its value goes to the local `obj`, and the level is reset. */
    method OnFinish(c: char, obj: Json) returns (move: Move, obj': Json)
      requires Valid() && stack[depth].state == Finish
      requires depth > 0 ==> !Collecting(stack[depth - 1].state)
      modifies this`depth, this`err, stack
      ensures Valid()
      ensures Abs(obj') == Step(old(Abs(obj)), c) && move == Dispatch(old(Abs(obj)), c).move
      ensures err == if move.Out? then move.err else old(err)
    {
      obj' := obj;
      if depth == 0 {
        err := Success;
        move := Out(Success);
      } else {
        obj' := stack[depth].current;
        stack[depth] := FRESH;
        depth := depth - 1;
        assert stack[..depth] == old(stack[..depth])[..depth];
        move := Redo;
      }
    }

    /** The finished value is added to the array or the object of this level. */
    method OnAdd(c: char, obj: Json) returns (move: Move)
      requires Valid() && (stack[depth].state == ArrayAdd || stack[depth].state == ObjectValueAdd)
      requires Holds(stack[depth].state, stack[depth])
      modifies stack
      ensures Valid()
      ensures Abs(obj) == Step(old(Abs(obj)), c) && move == Dispatch(old(Abs(obj)), c).move
      ensures move == Redo
    {
      var l := stack[depth];
      if l.state == ArrayAdd {
        SetTop(Level(Eatws, ArraySep, Arr(l.current.items + [obj]), l.field), obj);
      } else {
        SetTop(Level(Eatws, ObjectSep, Obj(AddMember(l.current.members, l.field.value, obj)), None), obj);
      }
      move := Redo;
    }

    // ----- the characters at which a batched loop stops

    method OnSolid(c: char, ghost obj: Json) returns (move: Move)
      requires Valid() && stack[depth].state == Eatws && !IsSpace(c) && !Collecting(stack[depth].saved)
      modifies this`isDouble, this`stPos, this`quote, this`ucs, this`err, stack, pb, pb.buf
      ensures Valid() && (pb.buf == old(pb.buf) || fresh(pb.buf))
      ensures Abs(obj) == Step(old(Abs(obj)), c) && move == Dispatch(old(Abs(obj)), c).move
      ensures err == if move.Out? then move.err else old(err)
    {
      var l := stack[depth];
      if c == '/' {
        pb.Reset();
        pb.AppendFast([c]);
        assert "" + [c] == [c];
        SetTop(l.(state := CommentStart), obj);
        move := Advance;
      } else {
        SetTop(l.(state := l.saved), obj);
        move := Redo;
      }
    }

    method OnTextEnd(c: char, ghost obj: Json) returns (move: Move)
      requires Valid() && (stack[depth].state == String || stack[depth].state == ObjectField)
      requires c == quote || c == '\\'
      modifies this`isDouble, this`stPos, this`quote, this`ucs, this`err, stack, pb, pb.buf
      ensures Valid() && (pb.buf == old(pb.buf) || fresh(pb.buf))
      ensures Abs(obj) == Step(old(Abs(obj)), c) && move == Dispatch(old(Abs(obj)), c).move
      ensures err == if move.Out? then move.err else old(err)
    {
      var l := stack[depth];
      if c == quote {
        var s := pb.CopyString();
        if l.state == String {
          SetTop(Level(Eatws, Finish, Str(s), l.field), obj);
        } else {
          SetTop(Level(Eatws, ObjectFieldEnd, l.current, Some(s)), obj);
        }
      } else {
        SetTop(l.(state := StringEscape, saved := l.state), obj);
      }
      move := Advance;
    }

    method OnNumberEnd(c: char, ghost obj: Json) returns (move: Move)
      requires Valid() && stack[depth].state == Number && !IsNumberChar(c)
      modifies this`isDouble, this`stPos, this`quote, this`ucs, this`err, stack, pb, pb.buf
      ensures Valid() && (pb.buf == old(pb.buf) || fresh(pb.buf))
      ensures Abs(obj) == Step(old(Abs(obj)), c) && move == Dispatch(old(Abs(obj)), c).move
      ensures err == if move.Out? then move.err else old(err)
    {
      hide Numeric;
      match Numeric(pb.buf[..pb.bpos], isDouble) {
        case Some(v) =>
          SetTop(Level(Eatws, Finish, v, stack[depth].field), obj);
          move := Redo;
        case None =>
          err := NumberExpected;
          move := Out(NumberExpected);
      }
    }

    method OnCommentStop(c: char, ghost obj: Json) returns (move: Move)
      requires Valid()
      requires (stack[depth].state == Comment && c == '*') || (stack[depth].state == CommentEol && c == '\n')
      modifies this`isDouble, this`stPos, this`quote, this`ucs, this`err, stack, pb, pb.buf
      ensures Valid() && (pb.buf == old(pb.buf) || fresh(pb.buf))
      ensures Abs(obj) == Step(old(Abs(obj)), c) && move == Dispatch(old(Abs(obj)), c).move
      ensures err == if move.Out? then move.err else old(err)
    {
      var l := stack[depth];
      if l.state == Comment {
        AppendGo([c], l.(state := CommentEnd), obj);
      } else {
        SetTop(l.(state := Eatws), obj);
      }
      move := Advance;
    }

    /** One hexadecimal digit; the fourth ends the escape. */
    method OnHex(c: char, ghost obj: Json) returns (move: Move)
      requires Valid() && stack[depth].state == EscapeUnicode && stPos < 4
      requires stack[depth].saved == String || stack[depth].saved == ObjectField
      modifies this`isDouble, this`stPos, this`quote, this`ucs, this`err, stack, pb, pb.buf
      ensures Valid() && (pb.buf == old(pb.buf) || fresh(pb.buf))
      ensures Abs(obj) == Step(old(Abs(obj)), c) && move == Dispatch(old(Abs(obj)), c).move
      ensures err == if move.Out? then move.err else old(err)
    {
      if !IsHexChar(c) {
        err := BadString;
        return Out(BadString);
      }
      ucs := AddHexDigit(ucs, c, stPos);
      stPos := stPos + 1;
      if stPos == 4 {
        AppendGo(Utf8(ucs), stack[depth].(state := stack[depth].saved), obj);
      }
      move := Advance;
    }

    // ----- states with a batched inner loop

    /** `ADVANCE_CHAR` and then `POP_CHAR`: false at a terminator and at the end of the text. */
    method NextChar(c: char, text: string, len: int, ghost obj: Json) returns (ok: bool, c': char)
      requires Valid() && Window(text, len) && 0 <= charOffset < |text| && c == text[charOffset]
      modifies this`charOffset, this`err
      ensures Valid() && Abs(obj) == old(Abs(obj)) && charOffset == old(charOffset) + 1
      ensures ok <==> c != NUL && charOffset < |text|
      ensures if ok then c' == text[charOffset] else c' == c
      ensures err == if c == NUL || ok then old(err) else EndOfText(Abs(obj))
    {
      charOffset := charOffset + 1;
      ok, c' := false, c;
      if c != NUL {
        if charOffset == len {
          var l := stack[depth];
          err := if depth == 0 && l.state == Eatws && l.saved == Finish then Success else Continue;
        } else {
          ok, c' := true, text[charOffset];
        }
      }
    }

    /** The inner loop: pass over a batch without touching the buffer. */
    method Scan(c0: char, text: string, len: int, ghost obj: Json) returns (c: char, ok: bool)
      requires Valid() && Window(text, len) && 0 <= charOffset < |text| && c0 == text[charOffset]
      requires Batched(stack[depth].state)
      modifies this`charOffset, this`isDouble, this`err
      ensures Valid() && old(charOffset) <= charOffset <= |text|
      ensures Abs(obj) == old(Abs(obj)).(isDouble := isDouble)
      ensures isDouble == (old(isDouble) || MarksDouble(stack[depth].state, text[old(charOffset)..charOffset]))
      ensures forall i :: old(charOffset) <= i < charOffset ==> Skips(stack[depth].state, quote, text[i])
      ensures forall i :: old(charOffset) <= i < charOffset - 1 ==> text[i] != NUL
      ensures ok ==> charOffset < |text| && c == text[charOffset] && !Skips(stack[depth].state, quote, c)
      ensures ok ==> (old(charOffset) < charOffset ==> text[charOffset - 1] != NUL) && err == old(err)
      ensures !ok ==> old(charOffset) < charOffset && c == text[charOffset - 1] && (c == NUL || charOffset == |text|)
      ensures !ok ==> err == if c == NUL then old(err) else EndOfText(Abs(obj))
    {
      c, ok := c0, true;
      var start := charOffset;
      var s := stack[depth].state;
      while Skips(s, quote, c)
        invariant Valid() && err == old(err) && start <= charOffset < |text| && c == text[charOffset]
        invariant Abs(obj) == old(Abs(obj)).(isDouble := isDouble)
        invariant isDouble == (old(isDouble) || MarksDouble(s, text[start..charOffset]))
        invariant forall i :: start <= i < charOffset ==> Skips(s, quote, text[i]) && text[i] != NUL
        decreases |text| - charOffset
      {
        assert text[start..charOffset + 1] == text[start..charOffset] + [c];
        if s == Number && (c == '.' || c == 'e') {
          isDouble := true;
        }
        ok, c := NextChar(c, text, len, obj);
        if !ok {
          return;
        }
      }
    }

    /** A state with an inner loop: the batch is appended in one piece, then the character that stopped it is
        handled. */
    method OnBatch(c0: char, text: string, len: int, ghost obj: Json, ghost o: Outcome) returns (c: char, move: Move)
      requires Valid() && Window(text, len) && err == Success
      requires charOffset < |text| && c0 == text[charOffset] && Runs(Abs(obj), text, charOffset, o)
      requires Batched(stack[depth].state)
      modifies this`charOffset, this`isDouble, this`stPos, this`quote, this`ucs, this`err, stack, pb, pb.buf
      ensures Valid() && (pb.buf == old(pb.buf) || fresh(pb.buf))
      ensures old(charOffset) <= charOffset <= |text|
      ensures Left(move, Abs(obj), text, charOffset, c, err, o)
      ensures move.Redo? && charOffset == old(charOffset) ==> Rank(Abs(obj)) < old(Rank(Abs(obj)))
    {
      hide Run, Inv, Skipped;
      ghost var t := Abs(obj);
      var start := charOffset;
      var ok;
      c, ok := Scan(c0, text, len, obj);
      var batch := text[start..charOffset];
      if ok {
        SkipRuns(t, text, start, charOffset, o);
      } else {
        SkipLeaves(t, text, start, charOffset, o);
      }
      AppendBatch(batch, ok, t, obj);
      if !ok {
        return c, Out(err);
      }
      move := Stop(c, text, obj, o);
    }

    method Stop(c: char, text: string, ghost obj: Json, ghost o: Outcome) returns (move: Move)
      requires Valid() && err == Success && charOffset < |text| && c == text[charOffset]
      requires Batched(stack[depth].state) && !Skips(stack[depth].state, quote, c)
      requires Runs(Abs(obj), text, charOffset, o)
      modifies this`isDouble, this`stPos, this`quote, this`ucs, this`err, stack, pb, pb.buf
      ensures Valid() && (pb.buf == old(pb.buf) || fresh(pb.buf))
      ensures Left(move, Abs(obj), text, charOffset, c, err, o)
      ensures move.Redo? ==> Rank(Abs(obj)) < old(Rank(Abs(obj)))
    {
      StepLeft(Abs(obj), text, charOffset, o);
      StepKeepsInv(Abs(obj), c);
      move := OnStop(c, obj);
    }

    method AppendBatch(batch: string, ok: bool, ghost t: Tok, ghost obj: Json)
      requires Valid() && Batched(stack[depth].state)
      requires Abs(obj) == t.(isDouble := t.isDouble || MarksDouble(stack[depth].state, batch))
      modifies pb, pb.buf
      ensures Valid() && (pb.buf == old(pb.buf) || fresh(pb.buf))
      ensures Abs(obj) == Skipped(t, batch)
    {
      var s := stack[depth].state;
      if s == Eatws || (s == Number && ok && batch == "") {
        assert s == Number ==> t.pb + batch == t.pb;
      } else {
        pb.AppendFast(batch);
      }
    }

    method OnStop(c: char, ghost obj: Json) returns (move: Move)
      requires Valid() && Batched(stack[depth].state) && !Skips(stack[depth].state, quote, c)
      requires stack[depth].state == Eatws ==> !Collecting(stack[depth].saved)
      modifies this`isDouble, this`stPos, this`quote, this`ucs, this`err, stack, pb, pb.buf
      ensures Valid() && (pb.buf == old(pb.buf) || fresh(pb.buf))
      ensures Abs(obj) == Step(old(Abs(obj)), c) && move == Dispatch(old(Abs(obj)), c).move
      ensures err == if move.Out? then move.err else old(err)
    {
      match stack[depth].state {
        case Eatws => move := OnSolid(c, obj);
        case Number => move := OnNumberEnd(c, obj);
        case String | ObjectField => move := OnTextEnd(c, obj);
        case _ => move := OnCommentStop(c, obj);
      }
    }

    /** One hexadecimal digit and, unless the escape is over, the next character. */
    method HexTurn(c0: char, text: string, len: int, ghost obj: Json, ghost o: Outcome) returns (c: char, move: Move)
      requires Valid() && Window(text, len) && err == Success
      requires charOffset < |text| && c0 == text[charOffset] && Runs(Abs(obj), text, charOffset, o)
      requires stack[depth].state == EscapeUnicode
      modifies this`charOffset, this`isDouble, this`stPos, this`quote, this`ucs, this`err, stack, pb, pb.buf
      ensures Valid() && (pb.buf == old(pb.buf) || fresh(pb.buf))
      ensures old(charOffset) <= charOffset <= |text|
      ensures Left(move, Abs(obj), text, charOffset, c, err, o)
      ensures move.Redo? ==> old(charOffset) < charOffset && stack[depth].state == EscapeUnicode
    {
      hide Settle, Run;
      c := c0;
      StepLeft(Abs(obj), text, charOffset, o);
      move := OnHex(c, obj);
      if move.Advance? && stPos < 4 {
        if c == NUL || charOffset + 1 == |text| {
          AdvancedLeaves(Abs(obj), text, charOffset, o);
        }
        var ok;
        ok, c := NextChar(c, text, len, obj);
        move := if ok then Redo else Out(err);
      }
    }

    /** Four hexadecimal digits, within one visit of the state. */
    method EatHex(c0: char, text: string, len: int, ghost obj: Json, ghost o: Outcome) returns (c: char, move: Move)
      requires Valid() && Window(text, len) && err == Success
      requires charOffset < |text| && c0 == text[charOffset] && Runs(Abs(obj), text, charOffset, o)
      requires stack[depth].state == EscapeUnicode
      modifies this`charOffset, this`isDouble, this`stPos, this`quote, this`ucs, this`err, stack, pb, pb.buf
      ensures Valid() && (pb.buf == old(pb.buf) || fresh(pb.buf))
      ensures old(charOffset) <= charOffset <= |text| && !move.Redo?
      ensures Left(move, Abs(obj), text, charOffset, c, err, o)
    {
      c, move := HexTurn(c0, text, len, obj, o);
      while move.Redo?
        invariant Valid() && (pb.buf == old(pb.buf) || fresh(pb.buf))
        invariant old(charOffset) <= charOffset <= |text|
        invariant Left(move, Abs(obj), text, charOffset, c, err, o)
        invariant move.Redo? ==> stack[depth].state == EscapeUnicode
        decreases |text| - charOffset, move.Redo?
      {
        c, move := HexTurn(c, text, len, obj, o);
      }
    }

    // ----- the loop of `json_tokener_parse_ex`

    /** One execution of the big switch. */
    method Switch(c0: char, text: string, len: int, obj: Json, ghost o: Outcome)
        returns (c: char, move: Move, obj': Json)
      requires Valid() && Window(text, len) && err == Success
      requires charOffset < |text| && c0 == text[charOffset] && Runs(Abs(obj), text, charOffset, o)
      modifies this, stack, pb, pb.buf
      ensures Valid() && (pb.buf == old(pb.buf) || fresh(pb.buf))
      ensures old(charOffset) <= charOffset <= |text|
      ensures Left(move, Abs(obj'), text, charOffset, c, err, o)
      ensures move.Redo? && charOffset == old(charOffset) ==> Rank(Abs(obj')) < old(Rank(Abs(obj)))
    {
      c, obj' := c0, obj;
      var s := stack[depth].state;
      if Batched(s) {
        c, move := OnBatch(c0, text, len, obj, o);
      } else if s == EscapeUnicode {
        c, move := EatHex(c0, text, len, obj, o);
      } else {
        StepLeft(Abs(obj), text, charOffset, o);
        StepKeepsInv(Abs(obj), c);
        move, obj' := OnSingle(c, obj);
      }
    }

    /** The states that look at one character. */
    method OnSingle(c: char, obj: Json) returns (move: Move, obj': Json)
      requires Valid() && Inv(Abs(obj))
      requires !Batched(stack[depth].state) && stack[depth].state != EscapeUnicode
      modifies this`depth, this`isDouble, this`stPos, this`quote, this`ucs, this`err, stack, pb, pb.buf
      ensures Valid() && (pb.buf == old(pb.buf) || fresh(pb.buf))
      ensures Abs(obj') == Step(old(Abs(obj)), c) && move == Dispatch(old(Abs(obj)), c).move
      ensures err == if move.Out? then move.err else old(err)
    {
      obj' := obj;
      match stack[depth].state {
        case Start => move := OnStart(c, obj);
        case Finish =>
          assert depth > 0 ==> Waiting(Abs(obj).below[depth - 1]);
          move, obj' := OnFinish(c, obj);
        case NullWord | Boolean => move := OnWord(c, obj);
        case StringEscape => move := OnEscape(c, obj);
        case CommentStart | CommentEnd => move := OnCommentMark(c, obj);
        case Array | ObjectValue => move := OnOpen(c, obj);
        case ArrayAdd | ObjectValueAdd => move := OnAdd(c, obj);
        case ArraySep | ObjectSep => move := OnSeparator(c, obj);
        case ObjectFieldStart => move := OnKey(c, obj);
        case _ => move := OnColon(c, obj);
      }
    }

    /** The executions of the switch between two turns of the main loop. */
    method RedoChar(c0: char, text: string, len: int, obj: Json, ghost o: Outcome)
        returns (c: char, move: Move, obj': Json)
      requires Valid() && Window(text, len) && err == Success
      requires charOffset < |text| && c0 == text[charOffset] && Runs(Abs(obj), text, charOffset, o)
      modifies this, stack, pb, pb.buf
      ensures Valid() && (pb.buf == old(pb.buf) || fresh(pb.buf))
      ensures old(charOffset) <= charOffset <= |text| && !move.Redo?
      ensures Left(move, Abs(obj'), text, charOffset, c, err, o)
    {
      c, move, obj' := Switch(c0, text, len, obj, o);
      while move.Redo?
        invariant Valid() && (pb.buf == old(pb.buf) || fresh(pb.buf))
        invariant old(charOffset) <= charOffset <= |text|
        invariant Left(move, Abs(obj'), text, charOffset, c, err, o)
        decreases |text| - charOffset, if move.Redo? then 1 + Rank(Abs(obj')) else 0
      {
        c, move, obj' := Switch(c, text, len, obj', o);
      }
    }

    /** Where the main loop stands: about to read on, or on its way out after `c`. */
    ghost predicate Position(going: bool, c: char, obj: Json, text: string, len: int, o: Outcome)
      reads this, pb, pb.buf, stack
    {
      && Valid() && 0 <= charOffset <= |text|
      && (going ==> c != NUL && err == Success && Runs(Abs(obj), text, charOffset, o))
      && (going && len == -1 ==> charOffset < |text|)
      && (!going ==> o == Outcome(Abs(obj), CheckEof(Abs(obj), c, err), |text| - charOffset))
    }

    method NoMoreChars(c: char, ghost obj: Json, text: string, ghost o: Outcome)
      requires Position(true, c, obj, text, |text|, o) && charOffset == |text|
      modifies this`err
      ensures Position(false, c, obj, text, |text|, o)
    {
      RunsEnd(Abs(obj), text, o);
      var l := stack[depth];
      err := if depth == 0 && l.state == Eatws && l.saved == Finish then Success else Continue;
    }

    /** `ADVANCE_CHAR` at the end of the main loop. */
    method Count(c: char, text: string, len: int, ghost obj: Json, ghost o: Outcome) returns (going: bool)
      requires Valid() && Window(text, len) && 0 <= charOffset && Left(Advance, Abs(obj), text, charOffset, c, err, o)
      modifies this`charOffset
      ensures Position(going, c, obj, text, len, o) && charOffset == old(charOffset) + 1
    {
      hide Run, Inv;
      going := c != NUL;
      charOffset := charOffset + 1;
    }

    /** One turn of the main loop: `POP_CHAR`, the switch, `ADVANCE_CHAR`. */
    method Turn(c0: char, text: string, len: int, obj: Json, ghost o: Outcome)
        returns (going: bool, c: char, obj': Json)
      requires Window(text, len) && Position(true, c0, obj, text, len, o)
      modifies this, stack, pb, pb.buf
      ensures Position(going, c, obj', text, len, o) && (pb.buf == old(pb.buf) || fresh(pb.buf))
      ensures old(charOffset) <= charOffset && (going ==> old(charOffset) < charOffset)
    {
      going, c, obj' := false, c0, obj;
      if charOffset == len {
        NoMoreChars(c, obj, text, o);
      } else {
        var move;
        c, move, obj' := RedoChar(text[charOffset], text, len, obj, o);
        if move.Advance? {
          going := Count(c, text, len, obj', o);
        }
      }
    }

    /**
     * `json_tokener_parse_ex`. The whole call, with its batched loops, does to the tokener what
     * `Feed` does one character at a time, and gives the same status, count of characters and value.
     * `str` is the memory from the pointer on; `len` is -1 for a C string. Whatever the status was, the
     * tokener can be fed again.
     */
    method ParseEx(str: string, len: int) returns (value: Json)
      requires Valid() && Inv(Abs(Null))
      requires 0 <= len <= |str| || (len == -1 && str != "" && str[|str| - 1] == NUL)
      modifies this, stack, pb, pb.buf
      ensures Valid() && Inv(Abs(Null)) && (pb.buf == old(pb.buf) || fresh(pb.buf))
      ensures var text := if len == -1 then str else str[..len];
        var o := Feed(old(Abs(Null)), text);
        Abs(Null) == o.tok && err == o.err && charOffset == |text| - o.unread && value == Value(o)
    {
      hide Run, Holds, Purpose;
      var text := if len == -1 then str else str[..len];
      charOffset, err := 0, Success;
      ghost var o := Run(Abs(Null), text);
      assert text[0..] == text;
      var c := MainLoop(text, len, o);
      var l := stack[depth];
      if c == NUL && l.state != Finish && l.saved != Finish {
        err := ParseEof;
      }
      value := if err == Success then l.current else Null;
    }

    method MainLoop(text: string, len: int, ghost o: Outcome) returns (c: char)
      requires Window(text, len) && Position(true, 1 as char, Null, text, len, o)
      modifies this, stack, pb, pb.buf
      ensures Valid() && (pb.buf == old(pb.buf) || fresh(pb.buf)) && 0 <= charOffset <= |text|
      ensures exists obj :: o == Outcome(Abs(obj), CheckEof(Abs(obj), c, err), |text| - charOffset)
    {
      var going, obj := true, Null;
      c := 1 as char;
      while going
        invariant Position(going, c, obj, text, len, o) && (pb.buf == old(pb.buf) || fresh(pb.buf))
        decreases |text| - charOffset, going
      {
        going, c, obj := Turn(c, text, len, obj, o);
      }
    }
  }

  /** `json_tokener_parse`: a new tokener, one call on a C string with its terminator. */
  method ParseString(str: string) returns (err: Error, value: Json)
    requires NulFree(str)
    ensures err == Parse(str).err && value == Value(Parse(str))
  {
    var tok := new JsonTokener();
    value := tok.ParseEx(str + [NUL], -1);
    err := tok.err;
  }
}
