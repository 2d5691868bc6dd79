/** What a bracket set contains, for every text that is accepted. */
module GlobBodies {
  import opened JsonValue
  import opened Glob
  import opened GlobScan

  /** The body of a set in front of its closing bracket: complete pieces, of which the last can also be one
      that the bracket ends. */
  predicate IsBody(mark: string, ps: seq<Piece>, after: string) {
    && At(after, 0) == ']' && ps != [] && Opening(mark, ps)
    && (AllComplete(ps, after) || (Closes(Last(ps)) && AllComplete(Front(ps), Text(Last(ps)) + after)))
  }

  function Last(ps: seq<Piece>): Piece
    requires ps != []
  {
    ps[|ps| - 1]
  }

  function Front(ps: seq<Piece>): seq<Piece>
    requires ps != []
  {
    ps[..|ps| - 1]
  }

  /** Some piece names the character, and if it is a `-`, no later range takes it back. */
  ghost predicate Marked(ps: seq<Piece>, c: char) {
    exists i :: 0 <= i < |ps| && c in Names(ps[i]) && (c == '-' ==> NoneFills(ps[i + 1..]))
  }

  predicate NoneFills(ps: seq<Piece>) {
    forall i :: 0 <= i < |ps| ==> !Fills(ps[i])
  }

  ghost predicate Means(cs: CharSet, mark: string, ps: seq<Piece>) {
    && (forall c :: c in cs.chars <==> Marked(ps, c))
    && (forall k :: k in cs.classes <==> Named(k) in ps)
    && cs.negate == (mark != "")
  }

  // ----- adding piece by piece is the union

  lemma {:induction false} AddAllMarks(cs: CharSet, ps: seq<Piece>, c: char)
    ensures c in AddAll(cs, ps).chars <==> (c in cs.chars && (c == '-' ==> NoneFills(ps))) || Marked(ps, c)
    decreases |ps|
  {
    if ps != [] {
      var rest := ps[1..];
      AddAllMarks(Add(cs, ps[0]), rest, c);
      assert ps[0 + 1..] == rest;
      NoneFillsFirst(ps);
      hide Fills, Names, NoneFills;
      if i :| 0 <= i < |ps| && c in Names(ps[i]) && (c == '-' ==> NoneFills(ps[i + 1..])) {
        if i > 0 { assert rest[i - 1] == ps[i] && rest[i - 1 + 1..] == ps[i + 1..]; }
      }
      if i :| 0 <= i < |rest| && c in Names(rest[i]) && (c == '-' ==> NoneFills(rest[i + 1..])) {
        assert ps[i + 1] == rest[i] && ps[i + 1 + 1..] == rest[i + 1..];
      }
    }
  }

  lemma NoneFillsFirst(ps: seq<Piece>)
    requires ps != []
    ensures NoneFills(ps) <==> !Fills(ps[0]) && NoneFills(ps[1..])
  {
    hide Fills;
    assert ps == [ps[0]] + ps[1..];
  }

  lemma {:induction false} AddAllClasses(cs: CharSet, ps: seq<Piece>)
    ensures forall k :: k in AddAll(cs, ps).classes <==> k in cs.classes || Named(k) in ps
    ensures AddAll(cs, ps).negate == cs.negate
    decreases |ps|
  {
    hide Fills, Names;
    if ps != [] {
      AddAllClasses(Add(cs, ps[0]), ps[1..]);
      assert ps == [ps[0]] + ps[1..];
    }
  }

  lemma AddAllMeans(mark: string, ps: seq<Piece>)
    ensures Means(AddAll(Started(mark).cs, ps), mark, ps)
  {
    hide AddAll, Marked;
    forall c ensures c in AddAll(Started(mark).cs, ps).chars <==> Marked(ps, c) {
      AddAllMarks(Started(mark).cs, ps, c);
    }
    AddAllClasses(Started(mark).cs, ps);
  }

  lemma MeansOnce(a: CharSet, b: CharSet, mark: string, ps: seq<Piece>)
    requires Means(a, mark, ps) && Means(b, mark, ps)
    ensures a == b
  {
    hide Marked;
    assert a.chars == b.chars && a.classes == b.classes;
  }

  lemma {:induction false} AddAllSnoc(cs: CharSet, ps: seq<Piece>, x: Piece)
    ensures AddAll(cs, ps + [x]) == Add(AddAll(cs, ps), x)
    decreases |ps|
  {
    hide Add;
    if ps == [] {
      assert [] + [x] == [x] && [x][1..] == [];
    } else {
      AddAllSnoc(Add(cs, ps[0]), ps[1..], x);
      assert (ps + [x])[1..] == ps[1..] + [x];
    }
  }

  lemma {:induction false} TextsSnoc(ps: seq<Piece>, x: Piece)
    ensures Texts(ps + [x]) == Texts(ps) + Text(x)
  {
    hide Text;
    if ps == [] {
      assert [] + [x] == [x] && [x][1..] == [] && Texts([x]) == Text(x) + Texts([]);
    } else {
      TextsSnoc(ps[1..], x);
      assert (ps + [x])[1..] == ps[1..] + [x];
    }
  }

  // ----- a body is scanned to its closing bracket

  lemma AddsText(cs: CharSet, x: Piece)
    requires Closes(x)
    ensures Add(cs, x) == With(cs, match x
      case Several(xs) => Unescaped(xs)
      case Range(xs, _) => Unescaped(xs) + {'-'}
      case Literal(t) => CharsOf(t)
      case _ => {})
  {
    hide Letters, Unescaped;
    assert cs.classes + {} == cs.classes;
    if x.Range? { assert CharsOf("") == {} && Unescaped(x.xs) + {'-'} + {} == Unescaped(x.xs) + {'-'}; }
  }

  lemma CloseScan(z: Scan, x: Piece, rest: string)
    requires NulFree(Text(x) + rest) && At(rest, 0) == ']' && Closes(x) && MayFollow(z, x)
    ensures ScanSet(z, Text(x) + rest) == Ok(Add(z.cs, x), rest)
  {
    hide ScanSet, Add, IsRun;
    AddsText(z.cs, x);
    match x
    case Several(xs) =>
      var z1 := RunScan(z, xs, rest);
      BracketCloses(z1, rest);
    case Range(run, e) =>
      assert run + ("-" + e) + rest == run + ("-" + (e + rest));
      var z1 := DashScan(z, run, e + rest);
      RangeCloses(z1, e, rest);
    case Literal(t) =>
      LiteralCloses(z, t, rest);
  }

  lemma RangeCloses(z: Scan, e: string, rest: string)
    requires NulFree(e + rest) && At(rest, 0) == ']' && e in {"", "\\"} && z.state == MayRange2
    ensures ScanSet(z, e + rest) == Ok(z.cs, rest)
  {
    hide ScanSet;
    if e == "" {
      assert e + rest == rest;
      ClosingTurn(z, rest);
    } else {
      assert (e + rest)[0] == '\\' && (e + rest)[1] == ']' && (e + rest)[1..] == rest;
      assert SetTurn(z, e + rest) == Return(Ok(z.cs, rest));
    }
    ByTurn(z, e + rest) by { hide SetTurn; }
  }

  lemma LiteralCloses(z: Scan, t: string, rest: string)
    requires NulFree(t + rest) && At(rest, 0) == ']' && t in {"]", "]["} && z.state == Default && !z.found
    ensures ScanSet(z, t + rest) == Ok(With(z.cs, CharsOf(t)), rest)
  {
    hide ScanSet, SetTurn, CharsOf;
    var z1, p1 := z.(found := true).Mark(']').To(RightBr), t[1..] + rest;
    DropFront(t, rest, 1);
    LiteralTurn(z, t + rest);
    OneTurn(z, t + rest, z1, 1, p1);
    PairChars(z.cs);
    if t == "]" {
      assert p1 == rest;
      BracketCloses(z1, rest);
    } else {
      assert p1[0] == '[' && p1[1..] == rest;
      PairTurn(z1, p1);
      var z2 := z1.Mark('[').To(RightBrLeftBr);
      OneTurn(z1, p1, z2, 1, rest);
      BracketCloses(z2, rest);
    }
  }

  lemma PairChars(cs: CharSet)
    ensures With(cs, CharsOf("]")) == cs.(chars := cs.chars + {']'})
    ensures With(cs, CharsOf("][")) == cs.(chars := cs.chars + {']'} + {'['})
  {
    assert "]" == [']'] && "][" == [']', '['];
    assert CharsOf("][") == {']'} + {'['} && cs.chars + ({']'} + {'['}) == cs.chars + {']'} + {'['};
  }

  lemma ClosingTurn(z: Scan, p: string)
    requires NulFree(p) && At(p, 0) == ']' && (z.state == Default ==> z.found)
    ensures SetTurn(z, p) == Return(Ok(z.cs, p))
  {
    assert p[0..] == p;
  }

  lemma BracketCloses(z: Scan, p: string)
    requires NulFree(p) && At(p, 0) == ']' && (z.state == Default ==> z.found)
    ensures ScanSet(z, p) == Ok(z.cs, p)
  {
    hide ScanSet, SetTurn;
    ClosingTurn(z, p);
    ByTurn(z, p);
  }

  lemma BodyScan(mark: string, ps: seq<Piece>, rest: string)
    requires NulFree(mark + (Texts(ps) + rest)) && IsBody(mark, ps, rest)
    ensures ScanSet(SCAN_START, mark + (Texts(ps) + rest)) == Ok(AddAll(Started(mark).cs, ps), rest)
  {
    hide ScanSet, AllComplete, Closes, Texts, Add;
    if AllComplete(ps, rest) {
      var z := OpeningScan(mark, ps, rest);
      BracketCloses(z, rest);
    } else {
      var x, qs := Last(ps), Front(ps);
      assert ps == qs + [x];
      TextsSnoc(qs, x);
      AddAllSnoc(Started(mark).cs, qs, x);
      assert Texts(ps) + rest == Texts(qs) + (Text(x) + rest);
      OpeningFront(mark, ps);
      var z := OpeningScan(mark, qs, Text(x) + rest);
      CloseScan(z, x, rest);
    }
  }

  lemma OpeningFront(mark: string, ps: seq<Piece>)
    requires ps != [] && Opening(mark, ps)
    ensures Opening(mark, Front(ps))
    ensures |ps| == 1 ==> Front(ps) == []
    ensures |ps| > 1 ==> !Last(ps).Literal?
  {
    if |ps| > 1 {
      assert Last(ps) == ps[1..][|ps| - 2] && Front(ps)[1..] == ps[1..][..|ps| - 2];
    }
  }

  // ----- every accepted text is a body

  lemma BodyOf(p: string, cs: CharSet, rest: string) returns (mark: string, ps: seq<Piece>)
    requires NulFree(p) && ScanSet(SCAN_START, p) == Ok(cs, rest)
    ensures p == mark + (Texts(ps) + rest) && IsBody(mark, ps, rest)
  {
    hide ScanSet, AllComplete, Texts, IsBody, Opening, EndsIn, Text, Closes;
    var x, q;
    mark, ps, x, q := FindAll(p);
    EndsOk(cs, rest, x, q);
    if q == rest {
      EmptySet(mark, ps, p, cs, rest);
    } else {
      ClosedBody(mark, ps, x, rest);
      TextsSnoc(ps, x);
      Regroup(mark, Texts(ps), Text(x), rest);
      ps := ps + [x];
    }
  }

  lemma Regroup(a: string, b: string, c: string, d: string)
    ensures a + (b + (c + d)) == a + ((b + c) + d)
  {
  }

  lemma EndsOk(cs: CharSet, rest: string, x: Piece, p: string)
    requires EndsIn(Ok(cs, rest), x, p)
    ensures At(rest, 0) == ']' && (p == rest || (p == Text(x) + rest && Closes(x)))
  {
  }

  lemma ClosedBody(mark: string, ps: seq<Piece>, x: Piece, rest: string)
    requires Opening(mark, ps) && AllComplete(ps, Text(x) + rest) && Closes(x) && At(rest, 0) == ']'
    requires x.Literal? ==> ps == []
    ensures IsBody(mark, ps + [x], rest)
  {
    hide AllComplete;
    assert Front(ps + [x]) == ps && Last(ps + [x]) == x;
    assert (ps + [x])[1..] == if ps == [] then [] else ps[1..] + [x];
  }

  lemma EmptySet(mark: string, ps: seq<Piece>, p: string, cs: CharSet, rest: string)
    requires NulFree(p) && ScanSet(SCAN_START, p) == Ok(cs, rest)
    requires p == mark + (Texts(ps) + rest) && Opening(mark, ps) && AllComplete(ps, rest) && At(rest, 0) == ']'
    ensures IsBody(mark, ps, rest)
  {
    hide ScanSet, SetTurn, AllComplete;
    if ps == [] {
      assert Texts(ps) + rest == rest;
      MarkScan(mark, rest);
      LiteralTurn(Started(mark), rest);
      ByTurn(Started(mark), rest);
      assert false;
    }
  }

  /** For every text behind an opening bracket: the set is accepted up to `rest` with the marks `cs` if and only
      if it is a body, closed in front of `rest`, and `cs` is what its pieces name together: a character itself,
      a run its characters, a range that goes up everything in between, each named class, and the negation.
      A `-` in front of a range that goes up is not marked. */
  lemma SetMeansExactly(p: string, cs: CharSet, rest: string)
    requires NulFree(p)
    ensures ScanSet(SCAN_START, p) == Ok(cs, rest) <==>
      exists mark, ps :: p == mark + (Texts(ps) + rest) && IsBody(mark, ps, rest) && Means(cs, mark, ps)
  {
    hide ScanSet, IsBody, Means, Texts, AddAll;
    if ScanSet(SCAN_START, p) == Ok(cs, rest) {
      var mark, ps := BodyOf(p, cs, rest);
      BodyScan(mark, ps, rest);
      AddAllMeans(mark, ps);
    }
    if mark, ps :| p == mark + (Texts(ps) + rest) && IsBody(mark, ps, rest) && Means(cs, mark, ps) {
      BodyScan(mark, ps, rest);
      AddAllMeans(mark, ps);
      MeansOnce(cs, AddAll(Started(mark).cs, ps), mark, ps);
    }
  }
}
