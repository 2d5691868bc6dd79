/** Feeding a text in pieces gives what feeding it at once gives. */
module TokenerChunks {
  import opened JsonValue
  import opened Tokener

  /** The tokener with the local variable `obj` forgotten. */
  function Forget(t: Tok): Tok {
    t.(obj := Null)
  }

  /** `s` is `r` but for the `obj` of its tokener. */
  predicate Same(r: Result, s: Result, x: Json) {
    s == r.(tok := r.tok.(obj := x))
  }

  lemma {:induction false} StartForgets(t: Tok, x: Json, c: char)
    ensures Same(InStart(t, c), InStart(t.(obj := x), c), x)
  {
  }

  lemma {:induction false} WordForgets(t: Tok, x: Json, c: char)
    ensures Same(InNull(t, c), InNull(t.(obj := x), c), x)
    ensures Same(InBoolean(t, c), InBoolean(t.(obj := x), c), x)
    ensures Same(InNumber(t, c), InNumber(t.(obj := x), c), x)
  {
  }

  lemma {:induction false} TextForgets(t: Tok, x: Json, c: char)
    ensures Same(InString(t, c), InString(t.(obj := x), c), x)
    ensures Same(InStringEscape(t, c), InStringEscape(t.(obj := x), c), x)
    ensures Same(InEscapeUnicode(t, c), InEscapeUnicode(t.(obj := x), c), x)
  {
  }

  lemma {:induction false} CommentForgets(t: Tok, x: Json, c: char)
    ensures Same(InComment(t, c), InComment(t.(obj := x), c), x)
  {
  }

  lemma {:induction false} ContainerForgets(t: Tok, x: Json, c: char)
    ensures Same(InArray(t, c), InArray(t.(obj := x), c), x)
    ensures Same(InValue(t, c), InValue(t.(obj := x), c), x)
    ensures Same(InObjectSep(t, c), InObjectSep(t.(obj := x), c), x)
  {
  }

  lemma {:induction false} KeyForgets(t: Tok, x: Json, c: char)
    ensures Same(InKey(t, c), InKey(t.(obj := x), c), x)
  {
  }

  /** No execution of the switch looks at `obj`; only its effect can. */
  lemma {:induction false} DispatchForgets(t: Tok, x: Json, c: char)
    ensures Same(Dispatch(t, c), Dispatch(t.(obj := x), c), x)
  {
    match t.top.state
    case Start => StartForgets(t, x, c);
    case NullWord | Boolean | Number => WordForgets(t, x, c);
    case String | StringEscape | EscapeUnicode => TextForgets(t, x, c);
    case CommentStart | Comment | CommentEol | CommentEnd => CommentForgets(t, x, c);
    case ObjectFieldStart | ObjectField => KeyForgets(t, x, c);
    case Eatws | Finish =>
    case _ => ContainerForgets(t, x, c);
  }

  lemma {:induction false} ApplyForgets(t: Tok, x: Json, e: Effect)
    requires e.AddItem? || e.AddField? ==> t.obj == x
    ensures Forget(Apply(t.(obj := x), e)) == Forget(Apply(t, e))
    ensures e.Pop? && t.below != [] ==> Apply(t.(obj := x), e) == Apply(t, e)
  {
  }

  /** One execution of the switch on two tokeners that differ at most in a dead `obj`. */
  lemma {:induction false} StepForgets(t: Tok, u: Tok, c: char)
    requires Forget(t) == Forget(u) && Inv(t) && Inv(u)
    requires t == u || Quiet(t)
    ensures Dispatch(t, c).move == Dispatch(u, c).move
    ensures Forget(Step(t, c)) == Forget(Step(u, c))
    ensures Dispatch(t, c).move.Redo? ==> Step(t, c) == Step(u, c) || Quiet(Step(t, c))
  {
    if t != u {
      assert u == t.(obj := u.obj);
      DispatchForgets(t, u.obj, c);
      QuietEffect(t, c);
      ApplyForgets(Dispatch(t, c).tok, u.obj, Dispatch(t, c).effect);
    }
  }

  /** A quiet tokener never adds a value, and only taking a value off a level ends the quiet. */
  lemma {:induction false} QuietEffect(t: Tok, c: char)
    requires Inv(t) && Quiet(t)
    ensures var r := Dispatch(t, c);
      && !r.effect.AddItem? && !r.effect.AddField?
      && (r.effect.Pop? ==> r.tok.below != [])
      && (r.move.Redo? && !r.effect.Pop? ==> Quiet(Step(t, c)))
  {
  }

  lemma {:induction false} SettleForgets(t: Tok, u: Tok, c: char)
    requires Forget(t) == Forget(u) && Inv(t) && Inv(u)
    requires t == u || Quiet(t)
    ensures Settle(t, c).1 == Settle(u, c).1
    ensures Forget(Settle(t, c).0) == Forget(Settle(u, c).0)
    decreases Rank(t)
  {
    StepForgets(t, u, c);
    StepKeepsInv(t, c);
    StepKeepsInv(u, c);
    if Dispatch(t, c).move.Redo? {
      SettleForgets(Step(t, c), Step(u, c), c);
    }
  }

  lemma {:induction false} RunForgets(t: Tok, u: Tok, text: string)
    requires Forget(t) == Forget(u) && Inv(t) && Inv(u) && Quiet(t)
    ensures Run(t, text).err == Run(u, text).err
    ensures Run(t, text).unread == Run(u, text).unread
    ensures Forget(Run(t, text).tok) == Forget(Run(u, text).tok)
    decreases |text|
  {
    if text != "" {
      SettleForgets(t, u, text[0]);
      if Settle(t, text[0]).1.Advance? && text[0] != NUL {
        RunForgets(Settle(t, text[0]).0, Settle(u, text[0]).0, text[1..]);
      }
    }
  }

  /** The call reached the end of its text: nothing was refused and no terminator was met. */
  predicate Exhausted(t: Tok, text: string)
    requires Inv(t)
    decreases |text|
  {
    text == "" ||
    (text[0] != NUL && Settle(t, text[0]).1.Advance? && Exhausted(Settle(t, text[0]).0, text[1..]))
  }

  /** A text that is used up leaves the run in a state from which the rest runs as if it had followed at once. */
  lemma {:induction false} RunSplits(t: Tok, a: string, b: string)
    requires Inv(t) && Exhausted(t, a)
    ensures var o := Run(t, a);
      && Inv(o.tok) && o.unread == 0 && o.err == EndOfText(o.tok)
      && (Quiet(t) ==> Quiet(o.tok))
      && Run(t, a + b) == Run(o.tok, b)
    decreases |a|
  {
    if a == "" {
      assert a + b == b;
    } else {
      assert (a + b)[1..] == a[1..] + b;
      RunSplits(Settle(t, a[0]).0, a[1..], b);
    }
  }

  /** `continue` is only ever reported at the end of a text that was used up. */
  lemma {:induction false} ContinueExhausts(t: Tok, text: string)
    requires Inv(t) && Run(t, text).err == Continue
    ensures Exhausted(t, text)
    decreases |text|
  {
    if text != "" && Settle(t, text[0]).1.Advance? && text[0] != NUL {
      ContinueExhausts(Settle(t, text[0]).0, text[1..]);
    }
  }

  /**
   * Chunk independence. From any tokener between two calls, if one call uses up `a`, then calling
   * again with `b` gives exactly what one call with `a + b` gives: the same tokener, status, value
   * and number of characters not read. This holds for every place to cut.
   */
  lemma {:induction false} ChunkIndependence(t: Tok, a: string, b: string)
    requires Inv(t) && Quiet(t) && Exhausted(Forget(t), a)
    ensures var first := Feed(t, a);
      && Inv(first.tok) && Quiet(first.tok)
      && Feed(first.tok, b) == Feed(t, a + b)
      && Value(Feed(first.tok, b)) == Value(Feed(t, a + b))
  {
    RunSplits(Forget(t), a, b);
    var u := Run(Forget(t), a).tok;
    RunForgets(u, Forget(u), b);
  }

  /** In particular after every call that reports `continue`. */
  lemma ContinueThenRest(t: Tok, a: string, b: string)
    requires Inv(t) && Quiet(t) && Feed(t, a).err == Continue
    ensures Inv(Feed(t, a).tok) && Feed(Feed(t, a).tok, b) == Feed(t, a + b)
  {
    ContinueExhausts(Forget(t), a);
    ChunkIndependence(t, a, b);
  }
}
