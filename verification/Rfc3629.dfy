/** UTF-8 as in section 3 of RFC 3629, in numbers. A `char` stands for one byte. The codes of surrogates are
    taken like any other. */
module Rfc3629 {
  import opened JsonValue

  predicate IsCode(u: int) {
    0 <= u < 0x110000
  }

  predicate AreCodes(us: seq<int>) {
    forall i :: 0 <= i < |us| ==> IsCode(us[i])
  }

  /** The byte that carries the last six binary digits of `u`. */
  function Low6(u: int): (c: char)
    ensures 128 <= c as int < 192
  {
    (128 + u % 64) as char
  }

  function Encode(u: int): (s: string)
    requires IsCode(u)
    ensures s != ""
  {
    if u < 128 then [u as char]
    else if u < 2048 then [(192 + u / 64) as char, Low6(u)]
    else if u < 65536 then [(224 + u / 64 / 64) as char, Low6(u / 64), Low6(u)]
    else [(240 + u / 64 / 64 / 64) as char, Low6(u / 64 / 64), Low6(u / 64), Low6(u)]
  }

  /** Six more binary digits. */
  function More(u: int, c: char): int {
    u * 64 + (c as int - 128)
  }

  predicate Tail(c: char) {
    128 <= c as int < 192
  }

  /** The code at the front of `s`, and how many bytes it takes; no code has a longer form than it needs. */
  function First(s: string): Option<(int, nat)>
    requires s != ""
  {
    var b := s[0] as int;
    if b < 128 then Some((b, 1))
    else if 192 <= b < 224 && |s| >= 2 && Tail(s[1]) then
      var u := More(b - 192, s[1]);
      if u >= 128 then Some((u, 2)) else None
    else if 224 <= b < 240 && |s| >= 3 && Tail(s[1]) && Tail(s[2]) then
      var u := More(More(b - 224, s[1]), s[2]);
      if u >= 2048 then Some((u, 3)) else None
    else if 240 <= b < 248 && |s| >= 4 && Tail(s[1]) && Tail(s[2]) && Tail(s[3]) then
      var u := More(More(More(b - 240, s[1]), s[2]), s[3]);
      if 65536 <= u < 0x110000 then Some((u, 4)) else None
    else None
  }

  function Prefixed(u: int, us: Option<seq<int>>): Option<seq<int>> {
    match us
    case Some(r) => Some([u] + r)
    case None => None
  }

  /** The codes that a text of bytes stands for. */
  function Decode(s: string): Option<seq<int>> {
    if s == "" then Some([])
    else
      match First(s)
      case Some((u, n)) => if 0 < n <= |s| then Prefixed(u, Decode(s[n..])) else None
      case None => None
  }

  function EncodeAll(us: seq<int>): string
    requires AreCodes(us)
  {
    if us == [] then ""
    else
      assert IsCode(us[0]);
      Encode(us[0]) + EncodeAll(us[1..])
  }

  lemma Last6(u: int, c: char)
    requires Tail(c)
    ensures More(u, c) / 64 == u && Low6(More(u, c)) == c
  {
    SixDigits(u, c as int - 128);
  }

  lemma SixDigits(u: int, d: int)
    requires 0 <= d < 64
    ensures (u * 64 + d) / 64 == u && (u * 64 + d) % 64 == d
  {
  }

  lemma Split6(u: int)
    ensures More(u / 64, Low6(u)) == u
  {
  }

  lemma FirstOfEncoded(u: int, rest: string)
    requires IsCode(u)
    ensures First(Encode(u) + rest) == Some((u, |Encode(u)|))
  {
    var s, e := Encode(u) + rest, Encode(u);
    assert s[0] == e[0] && (|e| > 1 ==> s[1] == e[1]) && (|e| > 2 ==> s[2] == e[2]) && (|e| > 3 ==> s[3] == e[3]);
    Split6(u);
    Split6(u / 64);
    Split6(u / 64 / 64);
    hide More, Low6;
  }

  lemma FirstIsEncoded(s: string)
    requires s != "" && First(s).Some?
    ensures var (u, n) := First(s).value; IsCode(u) && 0 < n <= |s| && Encode(u) == s[..n]
  {
    var b := s[0] as int;
    var (u, n) := First(s).value;
    if n == 2 {
      Last6(b - 192, s[1]);
    } else if n == 3 {
      Last6(b - 224, s[1]);
      Last6(More(b - 224, s[1]), s[2]);
    } else if n == 4 {
      Last6(b - 240, s[1]);
      Last6(More(b - 240, s[1]), s[2]);
      Last6(More(More(b - 240, s[1]), s[2]), s[3]);
    }
    Room(s, u, n);
    hide More, Low6;
  }

  lemma Room(s: string, u: int, n: nat)
    requires s != "" && First(s) == Some((u, n))
    ensures IsCode(u) && n <= |s|
    ensures if u < 128 then n == 1 else if u < 2048 then n == 2 else if u < 65536 then n == 3 else n == 4
  {
  }

  /** Decoding is the inverse of encoding, and nothing else is decoded. */
  lemma {:induction false} DecodeExactly(s: string, us: seq<int>)
    ensures Decode(s) == Some(us) <==> AreCodes(us) && s == EncodeAll(us)
    decreases |s| + |us|
  {
    hide Encode, First;
    if s != "" && First(s).Some? {
      FirstIsEncoded(s);
      var (u, n) := First(s).value;
      assert s == s[..n] + s[n..];
      if us != [] { DecodeExactly(s[n..], us[1..]); }
    }
    if us != [] && AreCodes(us) && s == EncodeAll(us) {
      FirstOfEncoded(us[0], EncodeAll(us[1..]));
      assert s[|Encode(us[0])|..] == EncodeAll(us[1..]);
    }
    if us != [] { assert us == [us[0]] + us[1..]; }
  }
}
