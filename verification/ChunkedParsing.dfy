/** A text fed in any number of pieces, and a printed value fed in pieces. */
module ChunkedParsing {
  import opened JsonValue
  import opened Decimal
  import opened Sequences
  import opened Tokener
  import opened TokenerChunks
  import opened JsonPrinter
  import RoundTrip
  import JsonWriter

  /** Calls of `json_tokener_parse_ex` on the pieces and then on the last one, until one reports an error. */
  function FeedAll(t: Tok, pieces: seq<string>, last: string): Outcome
    requires Inv(t)
    decreases |pieces|
  {
    if pieces == [] then Feed(t, last)
    else
      var o := Feed(t, pieces[0]);
      if o.err == Success || o.err == Continue then FeedAll(o.tok, pieces[1..], last) else o
  }

  /** A run that reads on beyond `a` has used `a` up. */
  lemma {:induction false} ReadsOn(t: Tok, a: string, b: string)
    requires Inv(t) && NulFree(a) && Run(t, a + b).unread <= |b|
    ensures Exhausted(t, a)
    decreases |a|
  {
    if a != "" {
      assert (a + b)[1..] == a[1..] + b && (a + b)[0] == a[0];
      if Settle(t, a[0]).1.Advance? {
        ReadsOn(Settle(t, a[0]).0, a[1..], b);
      }
    }
  }

  /** From any tokener between two calls: as long as one call on the whole text would not have stopped
      before its last piece, the pieces give the same tokener, status, value and unread part. */
  lemma {:induction false} AnyPieces(t: Tok, pieces: seq<string>, last: string)
    requires Inv(t) && Quiet(t) && forall p :: p in pieces ==> NulFree(p)
    requires Feed(t, Concat(pieces) + last).unread <= |last|
    ensures FeedAll(t, pieces, last) == Feed(t, Concat(pieces) + last)
    decreases |pieces|
  {
    hide Settle;
    if pieces == [] {
      assert Concat(pieces) + last == last;
    } else {
      var a, rest := pieces[0], Concat(pieces[1..]) + last;
      assert Concat(pieces) + last == a + rest;
      ReadsOn(Forget(t), a, rest);
      ChunkIndependence(t, a, rest);
      RunSplits(Forget(t), a, rest);
      AnyPieces(Feed(t, a).tok, pieces[1..], last);
    }
  }

  /** A printed value within the depth limit, cut into any pieces, is read back by feeding the pieces
      one after the other and a terminator at the end. */
  lemma PrintedInPieces(v: Json, pieces: seq<string>)
    requires RoundTrip.Plain(v) && Height(v) < MAX_DEPTH && Concat(pieces) == Print(v)
    ensures var o := FeedAll(NEW, pieces, [NUL]); o.err == Success && Value(o) == v
  {
    RoundTrip.ParsePrint(v);
    DoublesNulFree(v);
    JsonWriter.PrintNulFree(v);
    PiecesNulFree(pieces);
    AnyPieces(NEW, pieces, [NUL]);
  }

  lemma {:induction false} DoublesNulFree(v: Json)
    requires Doubles(v, DoubleText)
    ensures Doubles(v, NulFree)
    decreases v
  {
    match v
    case Arr(items) => forall x | x in items ensures Doubles(x, NulFree) { DoublesNulFree(x); }
    case Obj(members) => forall m | m in members ensures Doubles(m.value, NulFree) { DoublesNulFree(m.value); }
    case _ =>
  }

  lemma {:induction false} PiecesNulFree(pieces: seq<string>)
    requires NulFree(Concat(pieces))
    ensures forall p :: p in pieces ==> NulFree(p)
  {
    if pieces != [] { PiecesNulFree(pieces[1..]); }
  }
}
