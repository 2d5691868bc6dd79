/** Runs of the parser as a relation between what is left to read. */
module TokenerRuns {
  import opened JsonValue
  import opened Tokener

  /** A run of `t` on `s` comes to a run of `u` on `r`. */
  predicate Leads(t: Tok, s: string, u: Tok, r: string) {
    Inv(t) && Inv(u) && Run(t, s) == Run(u, r)
  }

  lemma {:induction false} Chain()
    ensures forall t, s, u, r, w, q {:trigger Leads(t, s, u, r), Leads(u, r, w, q)} ::
      Leads(t, s, u, r) && Leads(u, r, w, q) ==> Leads(t, s, w, q)
  {
  }

  lemma {:induction false} Stay(t: Tok, s: string)
    requires Inv(t)
    ensures Leads(t, s, t, s)
  {
  }

  lemma {:induction false} Redoing(t: Tok, s: string)
    requires Inv(t) && s != "" && Dispatch(t, s[0]).move.Redo?
    ensures Leads(t, s, Step(t, s[0]), s)
  {
    StepKeepsInv(t, s[0]);
  }

  lemma {:induction false} Taking(t: Tok, c: char, rest: string)
    requires Inv(t) && c != NUL && Dispatch(t, c).move.Advance?
    ensures Leads(t, [c] + rest, Step(t, c), rest)
  {
    StepKeepsInv(t, c);
    assert ([c] + rest)[1..] == rest;
  }

  lemma {:induction false} TakingSpace(t: Tok, rest: string)
    requires Inv(t) && t.top.state == Eatws
    ensures Leads(t, " " + rest, t, rest)
  {
    Taking(t, ' ', rest);
  }

  /** A value has been read at this level and waits to be handed down. */
  predicate Done(t: Tok, below: seq<Level>, v: Json) {
    Inv(t) && t.below == below && t.top == Level(Eatws, Finish, v, None)
  }

  /** The text with its terminator. */
  function Z(s: string): string { s + [NUL] }

  lemma ZFront(s: string)
    ensures Z(s)[0] == Front(s) && (s != "" ==> Z(s)[1..] == Z(s[1..]))
  {
  }

  /** The call ends with the error `e`. */
  predicate Rejects(t: Tok, s: string, e: Error) {
    Inv(t) && Run(t, s).err == e && e != Success && e != Continue
  }

  lemma Via(t: Tok, s: string, u: Tok, r: string)
    requires Leads(t, s, u, r)
    ensures forall e {:trigger Rejects(u, r, e)} :: Rejects(u, r, e) ==> Rejects(t, s, e)
    ensures forall w, q {:trigger Leads(u, r, w, q)} :: Leads(u, r, w, q) ==> Leads(t, s, w, q)
  {
  }

  /** The character in front is taken. */
  lemma Take(t: Tok, s: string)
    requires Inv(t) && s != "" && s[0] != NUL && Dispatch(t, s[0]).move.Advance?
    ensures Leads(t, Z(s), Step(t, s[0]), Z(s[1..]))
  {
    hide Dispatch, Inv, Step;
    ZFront(s);
    assert Z(s) == [s[0]] + Z(s[1..]);
    Taking(t, s[0], Z(s[1..]));
  }

  /** A move that does not consume. */
  lemma Stays(t: Tok, s: string)
    requires Inv(t) && Dispatch(t, Front(s)).move.Redo?
    ensures Leads(t, Z(s), Step(t, Front(s)), Z(s))
  {
    hide Dispatch, Inv, Step;
    ZFront(s);
    Redoing(t, Z(s));
  }

  /** An error at the character in front. */
  lemma Refuse(t: Tok, s: string, e: Error)
    requires Inv(t) && Dispatch(t, Front(s)).move == Out(e) && e != Success && e != Continue
    ensures var l := Step(t, Front(s)).top;
      Rejects(t, Z(s), if l.state == Finish || l.saved == Finish then e else Fault(s, e))
  {
    ZFront(s);
    StepKeepsInv(t, Front(s));
    hide Dispatch, Inv, Step;
  }

  /** The end of the text inside a token. */
  lemma EndInside(t: Tok)
    requires Inv(t) && Dispatch(t, NUL).move.Advance?
    requires Step(t, NUL).top.state != Finish && Step(t, NUL).top.saved != Finish
    ensures Rejects(t, Z(""), ParseEof)
  {
    ZFront("");
    StepKeepsInv(t, NUL);
    hide Dispatch, Inv, Step;
  }
}
