/** Base64 (section 4 of RFC 4648) as curl writes and reads it. */
module Base64 {
  import opened Bytes
  import opened JsonValue

  function Char64(v: int): char
    requires 0 <= v < 64
  {
    if v < 26 then 'A' + v as char
    else if v < 52 then 'a' + (v - 26) as char
    else if v < 62 then '0' + (v - 52) as char
    else if v == 62 then '+' else '/'
  }

  const UPPER := "ABCDEFGHIJKLMNOPQRSTUVWXYZ"
  const LOWER := "abcdefghijklmnopqrstuvwxyz"
  const DIGITS := "0123456789"
  const TABLE64 := UPPER + LOWER + DIGITS + "+/"

  lemma LettersAt(v: int)
    requires 0 <= v < 26
    ensures UPPER[v] == 'A' + v as char && LOWER[v] == 'a' + v as char
  {
    assert UPPER == "ABCDEFGHIJKLM" + "NOPQRSTUVWXYZ" && LOWER == "abcdefghijklm" + "nopqrstuvwxyz";
  }

  lemma DigitsAt(v: int)
    requires 0 <= v < 10
    ensures DIGITS[v] == '0' + v as char
  {
    assert DIGITS == "01234" + "56789";
  }

  lemma TableParts()
    ensures |UPPER| == |LOWER| == 26 && |DIGITS| == 10
  {
  }

  lemma TableAt(v: int)
    requires 0 <= v < 64
    ensures |TABLE64| == 64 && TABLE64[v] == Char64(v)
  {
    TableParts();
    hide UPPER, LOWER, DIGITS;
    if v < 26 { LettersAt(v); }
    else if v < 52 { LettersAt(v - 26); }
    else if v < 62 { DigitsAt(v - 52); }
  }

  function Value64(c: char): (v: Option<int>)
    ensures v.Some? ==> 0 <= v.value < 64 && Char64(v.value) == c
  {
    if 'A' <= c <= 'Z' then Some((c - 'A') as int)
    else if 'a' <= c <= 'z' then Some((c - 'a') as int + 26)
    else if '0' <= c <= '9' then Some((c - '0') as int + 52)
    else if c == '+' then Some(62)
    else if c == '/' then Some(63)
    else None
  }

  lemma ValueOfChar(v: int)
    requires 0 <= v < 64
    ensures Value64(Char64(v)) == Some(v) && Char64(v) != '=' && Char64(v) != NUL
  {
  }

  // ----- encoding: three bytes are one number, written with four digits

  function Number(a: byte, b: byte, c: byte): (x: int)
    ensures 0 <= x < 0x1000000
  {
    a as int * 65536 + b as int * 256 + c as int
  }

  /** Digit `k` of a 24-bit number in base 64, the first one being the highest. */
  function Digit(x: int, k: nat): (d: int)
    requires 0 <= x < 0x1000000 && k < 4
    ensures 0 <= d < 64
  {
    match k
    case 0 => x / 262144
    case 1 => x / 4096 % 64
    case 2 => x / 64 % 64
    case _ => x % 64
  }

  /** The first `n` digits of a number, then padding. */
  function Group(x: int, n: nat): (s: string)
    requires 0 <= x < 0x1000000 && 2 <= n <= 4
    ensures |s| == 4
  {
    [Char64(Digit(x, 0)), Char64(Digit(x, 1)),
     if n > 2 then Char64(Digit(x, 2)) else '=', if n > 3 then Char64(Digit(x, 3)) else '=']
  }

  /** The number of `=` signs for `n` bytes. */
  function Pad(n: nat): nat {
    if n % 3 == 0 then 0 else 3 - n % 3
  }

  /** How many groups `n` bytes make. */
  function Groups(n: nat): nat {
    if n == 0 then 0 else if n <= 3 then 1 else 1 + Groups(n - 3)
  }

  lemma {:induction false} GroupsIs(n: nat)
    ensures Groups(n) == (n + 2) / 3 && 3 * Groups(n) - Pad(n) == n
  {
    if n > 3 { GroupsIs(n - 3); }
  }

  function Encode(bs: seq<byte>): (s: string)
    ensures |s| == 4 * Groups(|bs|)
  {
    if bs == [] then ""
    else if |bs| == 1 then Group(Number(bs[0], 0, 0), 2)
    else if |bs| == 2 then Group(Number(bs[0], bs[1], 0), 3)
    else Group(Number(bs[0], bs[1], bs[2]), 4) + Encode(bs[3..])
  }

  // ----- decoding

  /** One character of `decodeQuantum`: an unknown character leaves the number as it is, and the search
      for a terminator stops at the table's own terminator, behind the last digit. */
  function Shift(x: nat, c: char): nat {
    match Value64(c)
    case Some(v) => x * 64 + v
    case None => if c == NUL then x * 64 + 64 else if c == '=' then x * 64 else x
  }

  function Quantum(s: string): (bs: seq<byte>)
    requires |s| >= 4
    ensures |bs| == 3
  {
    var x := Shift(Shift(Shift(Shift(0, s[0]), s[1]), s[2]), s[3]);
    [(x / 65536 % 256) as byte, (x / 256 % 256) as byte, (x % 256) as byte]
  }

  function Quanta(s: string, n: nat): (bs: seq<byte>)
    requires |s| >= 4 * n
    ensures |bs| == 3 * n
  {
    if n == 0 then [] else Quantum(s) + Quanta(s[4..], n - 1)
  }

  /** The characters in front of the padding. */
  function Plain(s: string): (n: nat)
    ensures n <= |s| && (n < |s| ==> s[n] == '=') && forall i :: 0 <= i < n ==> s[i] != '='
  {
    if s == "" || s[0] == '=' then 0 else 1 + Plain(s[1..])
  }

  /** The `=` signs that count: at most two. */
  function Padding(s: string): (n: nat)
    ensures n <= 2 && Plain(s) + n <= |s|
  {
    var i := Plain(s);
    if i == |s| then 0 else if i + 1 < |s| && s[i + 1] == '=' then 2 else 1
  }

  function Decode(s: string): seq<byte>
    requires NulFree(s)
  {
    var n := (Plain(s) + Padding(s)) / 4;
    if n == 0 then [] else Quanta(s, n)[..3 * n - Padding(s)]
  }

  // ----- the round trip

  lemma FourDigits(x: int)
    requires 0 <= x < 0x1000000
    ensures ((Digit(x, 0) * 64 + Digit(x, 1)) * 64 + Digit(x, 2)) * 64 + Digit(x, 3) == x
  {
    var y := x / 64;
    var z := y / 64;
    assert x == 64 * y + x % 64 && y == 64 * z + y % 64 && z == 64 * (z / 64) + z % 64;
    assert z == x / 4096 && z / 64 == x / 262144;
  }

  lemma TrailingZeros(a: byte, b: byte, c: byte)
    ensures c == 0 ==> Digit(Number(a, b, c), 3) == 0
    ensures b == 0 && c == 0 ==> Digit(Number(a, b, c), 2) == 0
  {
    ZeroDigits(a as int, b as int);
  }

  lemma ZeroDigits(a: int, b: int)
    ensures (a * 65536 + b * 256) % 64 == 0 && a * 65536 / 64 % 64 == 0
  {
    assert a * 65536 + b * 256 == (a * 1024 + b * 4) * 64;
    assert a * 65536 / 64 == a * 16 * 64;
  }

  lemma ShiftChar(x: nat, v: int)
    requires 0 <= v < 64
    ensures Shift(x, Char64(v)) == x * 64 + v
  {
    ValueOfChar(v);
  }

  lemma ShiftPad(x: nat)
    ensures Shift(x, '=') == x * 64
  {
  }

  function Shift4(s: string): nat
    requires |s| >= 4
  {
    Shift(Shift(Shift(Shift(0, s[0]), s[1]), s[2]), s[3])
  }

  lemma GroupNumber(x: int, n: nat)
    requires 0 <= x < 0x1000000 && 2 <= n <= 4
    requires (n < 4 ==> Digit(x, 3) == 0) && (n < 3 ==> Digit(x, 2) == 0)
    ensures Shift4(Group(x, n)) == x
  {
    FourDigits(x);
    hide Digit, Char64, Shift;
    var x0, x1, x2, x3 := Digit(x, 0), Digit(x, 1), Digit(x, 2), Digit(x, 3);
    ShiftChar(0, x0);
    ShiftChar(x0, x1);
    ShiftChar(x0 * 64 + x1, x2);
    ShiftPad(x0 * 64 + x1);
    ShiftChar((x0 * 64 + x1) * 64 + x2, x3);
    ShiftPad((x0 * 64 + x1) * 64 + x2);
  }

  lemma BytesOfNumber(a: byte, b: byte, c: byte)
    ensures var x := Number(a, b, c); x / 65536 % 256 == a as int && x / 256 % 256 == b as int && x % 256 == c as int
  {
    var x := Number(a, b, c);
    assert x / 65536 == a as int;
    assert x / 256 == a as int * 256 + b as int;
  }

  lemma GroupBack(a: byte, b: byte, c: byte, n: nat, after: string)
    requires 2 <= n <= 4 && (n < 4 ==> c == 0) && (n < 3 ==> b == 0)
    ensures Quantum(Group(Number(a, b, c), n) + after) == [a, b, c]
  {
    TrailingZeros(a, b, c);
    BytesOfNumber(a, b, c);
    GroupNumber(Number(a, b, c), n);
    hide Group, Number, Shift;
    var s := Group(Number(a, b, c), n);
    assert Shift4(s + after) == Shift4(s);
  }

  /** Free of terminators, and the last `pad` characters are the `=` signs. */
  predicate Padded(s: string, pad: nat) {
    && NulFree(s) && pad <= |s|
    && (forall i :: 0 <= i < |s| - pad ==> s[i] != '=')
    && (forall i :: |s| - pad <= i < |s| ==> s[i] == '=')
  }

  lemma GroupPadded(x: int, n: nat)
    requires 0 <= x < 0x1000000 && 2 <= n <= 4
    ensures Padded(Group(x, n), 4 - n)
  {
    ValueOfChar(Digit(x, 0));
    ValueOfChar(Digit(x, 1));
    ValueOfChar(Digit(x, 2));
    ValueOfChar(Digit(x, 3));
    hide Digit, Char64;
  }

  lemma OneGroupMore(first: string, rest: string, pad: nat)
    requires Padded(first, 0) && Padded(rest, pad)
    ensures Padded(first + rest, pad)
  {
    var s := first + rest;
    assert forall i :: |first| <= i < |s| ==> s[i] == rest[i - |first|];
  }

  /** An encoding ends with one `=` for each byte missing in its last group, and has no other. */
  lemma {:induction false} EncodePadded(bs: seq<byte>)
    ensures Padded(Encode(bs), Pad(|bs|))
  {
    hide Number, Group, Padded;
    if bs == [] {
      EmptyPadded();
    } else if |bs| == 1 {
      GroupPadded(Number(bs[0], 0, 0), 2);
    } else if |bs| == 2 {
      GroupPadded(Number(bs[0], bs[1], 0), 3);
    } else {
      GroupPadded(Number(bs[0], bs[1], bs[2]), 4);
      EncodePadded(bs[3..]);
      OneGroupMore(Group(Number(bs[0], bs[1], bs[2]), 4), Encode(bs[3..]), Pad(|bs|));
    }
  }

  lemma EmptyPadded()
    ensures Padded("", 0)
  {
  }

  lemma {:induction false} PlainIs(s: string, n: nat)
    requires n <= |s| && (n < |s| ==> s[n] == '=') && forall i :: 0 <= i < n ==> s[i] != '='
    ensures Plain(s) == n
  {
  }

  lemma PaddingIs(s: string, pad: nat)
    requires Padded(s, pad) && pad <= 2
    ensures NulFree(s) && Plain(s) == |s| - pad && Padding(s) == pad
  {
    PlainIs(s, |s| - pad);
  }

  /** Decoding all groups gives the bytes back, with a zero for each padding sign. */
  lemma {:induction false} QuantaBack(bs: seq<byte>)
    ensures |bs| <= 3 * Groups(|bs|) && Quanta(Encode(bs), Groups(|bs|))[..|bs|] == bs
  {
    hide Number, Group, Quantum;
    var n := Groups(|bs|);
    if bs == [] {
    } else if |bs| == 1 {
      GroupBack(bs[0], 0, 0, 2, "");
      assert Encode(bs) + "" == Encode(bs);
      OneQuantum(Encode(bs));
    } else if |bs| == 2 {
      GroupBack(bs[0], bs[1], 0, 3, "");
      assert Encode(bs) + "" == Encode(bs);
      OneQuantum(Encode(bs));
    } else {
      var first, rest := Group(Number(bs[0], bs[1], bs[2]), 4), Encode(bs[3..]);
      GroupBack(bs[0], bs[1], bs[2], 4, rest);
      QuantaBack(bs[3..]);
      assert (first + rest)[4..] == rest && (|bs| == 3 ==> rest == "") && n - 1 == Groups(|bs[3..]|);
      assert Quanta(Encode(bs), n) == bs[..3] + Quanta(rest, n - 1);
    }
  }

  lemma OneQuantum(s: string)
    requires |s| == 4
    ensures Quanta(s, 1) == Quantum(s)
  {
    hide Quantum;
    assert Quanta(s[4..], 0) == [];
  }

  /** Decoding gives every non-empty byte sequence back, for all three remainders of its length. */
  lemma RoundTrip(bs: seq<byte>)
    requires bs != []
    ensures NulFree(Encode(bs)) && Decode(Encode(bs)) == bs
  {
    EncodePadded(bs);
    PaddingIs(Encode(bs), Pad(|bs|));
    GroupsIs(|bs|);
    DecodeGroups(Encode(bs), Groups(|bs|));
    QuantaBack(bs);
    hide Encode, Decode, Quanta, Plain, Padding, Pad;
  }

  lemma DecodeGroups(s: string, k: nat)
    requires NulFree(s) && k > 0 && Plain(s) + Padding(s) == 4 * k
    ensures 4 * k <= |s| && Decode(s) == Quanta(s, k)[..3 * k - Padding(s)]
  {
    hide Quanta, Plain, Padding;
    assert (Plain(s) + Padding(s)) / 4 == k;
  }

  // ----- which texts are encodings

  /** Four characters that stand for `n - 1` bytes: digits, padding, and no bit set that is not a byte's. */
  predicate CanonicalGroup(s: string, n: nat)
    requires |s| == 4
  {
    && (forall i :: 0 <= i < 4 ==> if i < n then Value64(s[i]).Some? else s[i] == '=')
    && (n == 2 ==> Value64(s[1]).value % 16 == 0)
    && (n == 3 ==> Value64(s[2]).value % 4 == 0)
  }

  predicate Canonical(s: string) {
    if s == "" then true
    else if |s| < 4 then false
    else if |s| == 4 then CanonicalGroup(s, 2) || CanonicalGroup(s, 3) || CanonicalGroup(s, 4)
    else CanonicalGroup(s[..4], 4) && Canonical(s[4..])
  }

  function ValueAt(s: string, i: nat): (v: int)
    requires i < |s|
    ensures 0 <= v < 64
  {
    match Value64(s[i]) case Some(v) => v case None => 0
  }

  function ThreeBytes(s: string): (bs: seq<byte>)
    requires |s| >= 4
    ensures |bs| == 3
  {
    var v0, v1, v2, v3 := ValueAt(s, 0), ValueAt(s, 1), ValueAt(s, 2), ValueAt(s, 3);
    [(v0 * 4 + v1 / 16) as byte, (v1 % 16 * 16 + v2 / 4) as byte, (v2 % 4 * 64 + v3) as byte]
  }

  /** The bytes of a canonical text. */
  function BytesOf(s: string): seq<byte>
    requires Canonical(s)
  {
    if s == "" then []
    else
      if s[2] == '=' then ThreeBytes(s)[..1]
      else if s[3] == '=' then ThreeBytes(s)[..2]
      else ThreeBytes(s) + BytesOf(s[4..])
  }

  lemma DigitsOfValues(v0: int, v1: int, v2: int, v3: int)
    requires 0 <= v0 < 64 && 0 <= v1 < 64 && 0 <= v2 < 64 && 0 <= v3 < 64
    ensures var x := Number((v0 * 4 + v1 / 16) as byte, (v1 % 16 * 16 + v2 / 4) as byte, (v2 % 4 * 64 + v3) as byte);
      Digit(x, 0) == v0 && Digit(x, 1) == v1 && Digit(x, 2) == v2 && Digit(x, 3) == v3
  {
    var x := Number((v0 * 4 + v1 / 16) as byte, (v1 % 16 * 16 + v2 / 4) as byte, (v2 % 4 * 64 + v3) as byte);
    assert x == v0 * 262144 + v1 * 4096 + v2 * 64 + v3 by { hide Digit; }
    hide Number;
    DigitsUnique(x, v0, v1, v2, v3);
  }

  lemma DigitsUnique(x: int, v0: int, v1: int, v2: int, v3: int)
    requires 0 <= v0 < 64 && 0 <= v1 < 64 && 0 <= v2 < 64 && 0 <= v3 < 64
    requires x == v0 * 262144 + v1 * 4096 + v2 * 64 + v3
    ensures 0 <= x < 0x1000000 && Digit(x, 0) == v0 && Digit(x, 1) == v1 && Digit(x, 2) == v2 && Digit(x, 3) == v3
  {
    assert x / 4096 == v0 * 64 + v1;
    assert x / 64 == (v0 * 64 + v1) * 64 + v2;
  }

  lemma GroupOfValues(s: string, n: nat)
    requires |s| == 4 && 2 <= n <= 4 && CanonicalGroup(s, n)
    ensures var bs := ThreeBytes(s);
      Group(Number(bs[0], bs[1], bs[2]), n) == s && (n < 4 ==> bs[2] == 0) && (n < 3 ==> bs[1] == 0)
  {
    NoSpareBytes(s, n);
    ValuesAreDigits(s);
    CharsOfValues(s);
    hide Digit, Number, Char64, Value64, ValueAt, ThreeBytes;
  }

  lemma ValuesAreDigits(s: string)
    requires |s| == 4
    ensures var bs := ThreeBytes(s); var x := Number(bs[0], bs[1], bs[2]);
      Digit(x, 0) == ValueAt(s, 0) && Digit(x, 1) == ValueAt(s, 1) && Digit(x, 2) == ValueAt(s, 2) &&
        Digit(x, 3) == ValueAt(s, 3)
  {
    DigitsOfValues(ValueAt(s, 0), ValueAt(s, 1), ValueAt(s, 2), ValueAt(s, 3));
    hide Digit, Number, ValueAt;
  }

  lemma CharsOfValues(s: string)
    ensures forall i :: 0 <= i < |s| && Value64(s[i]).Some? ==> Char64(ValueAt(s, i)) == s[i]
  {
    hide Char64, Value64;
  }

  lemma NoSpareBytes(s: string, n: nat)
    requires |s| == 4 && 2 <= n <= 4 && CanonicalGroup(s, n)
    ensures var bs := ThreeBytes(s); (n < 4 ==> bs[2] == 0) && (n < 3 ==> bs[1] == 0)
  {
    PadHasNoValue();
    hide Value64;
  }

  lemma PadHasNoValue()
    ensures Value64('=') == None
  {
  }

  lemma LastGroup(s: string)
    requires |s| == 4 && Canonical(s)
    ensures Encode(BytesOf(s)) == s
  {
    PadHasNoValue();
    hide Number, Group, Value64;
    assert s[4..] == "" && BytesOf("") == [];
    if CanonicalGroup(s, 2) {
      GroupOfValues(s, 2);
    } else if CanonicalGroup(s, 3) {
      GroupOfValues(s, 3);
    } else {
      GroupOfValues(s, 4);
      NothingEncoded();
    }
  }

  lemma EncodeStep(three: seq<byte>, rest: seq<byte>)
    requires |three| == 3
    ensures Encode(three + rest) == Group(Number(three[0], three[1], three[2]), 4) + Encode(rest)
  {
    hide Group, Number;
    assert (three + rest)[3..] == rest;
  }

  lemma BytesStep(s: string)
    requires |s| > 4 && CanonicalGroup(s[..4], 4) && Canonical(s[4..])
    ensures BytesOf(s) == ThreeBytes(s[..4]) + BytesOf(s[4..])
  {
    var t := s[..4];
    NoPad(t);
    assert Canonical(s);
    hide Canonical, CanonicalGroup, ValueAt;
    assert t[0] == s[0] && t[1] == s[1] && t[2] == s[2] && t[3] == s[3];
    assert ThreeBytes(t) == ThreeBytes(s) by { SameValues(t, s); }
    hide ThreeBytes;
  }

  lemma SameValues(t: string, s: string)
    requires |t| >= 4 && |s| >= 4 && t[0] == s[0] && t[1] == s[1] && t[2] == s[2] && t[3] == s[3]
    ensures ThreeBytes(t) == ThreeBytes(s)
  {
  }

  lemma NoPad(t: string)
    requires |t| == 4 && CanonicalGroup(t, 4)
    ensures t[2] != '=' && t[3] != '='
  {
    PadHasNoValue();
    hide Value64;
  }

  lemma FirstGroup(s: string)
    requires |s| > 4 && CanonicalGroup(s[..4], 4) && Canonical(s[4..]) && Encode(BytesOf(s[4..])) == s[4..]
    ensures Encode(BytesOf(s)) == s
  {
    BytesStep(s);
    GroupOfValues(s[..4], 4);
    EncodeStep(ThreeBytes(s[..4]), BytesOf(s[4..]));
    hide *;
    assert s == s[..4] + s[4..];
  }

  lemma {:induction false} CanonicalIsEncoding(s: string)
    requires Canonical(s)
    ensures Encode(BytesOf(s)) == s
  {
    hide Number, Group, Value64;
    if s == "" {
    } else if |s| == 4 {
      LastGroup(s);
    } else {
      CanonicalIsEncoding(s[4..]);
      FirstGroup(s);
    }
  }

  lemma GroupCanonical(a: byte, b: byte, c: byte, n: nat)
    requires 2 <= n <= 4 && (n < 4 ==> c == 0) && (n < 3 ==> b == 0)
    ensures CanonicalGroup(Group(Number(a, b, c), n), n)
  {
    var x := Number(a, b, c);
    ValueOfChar(Digit(x, 0));
    ValueOfChar(Digit(x, 1));
    ValueOfChar(Digit(x, 2));
    ValueOfChar(Digit(x, 3));
    SpareBits(a, b, c);
    hide Digit, Number, Char64, Value64;
  }

  lemma QuarterDigit(k: int)
    ensures k * 4 % 64 % 4 == 0
  {
    assert k * 4 == k / 16 * 64 + k % 16 * 4;
    assert k * 4 % 64 == k % 16 * 4;
  }

  lemma SixteenthDigit(k: int)
    ensures k * 16 % 64 % 16 == 0
  {
    assert k * 16 == k / 4 * 64 + k % 4 * 16;
    assert k * 16 % 64 == k % 4 * 16;
  }

  lemma SpareDigits(a: int, b: int)
    ensures (a * 65536 + b * 256) / 64 % 64 % 4 == 0 && a * 65536 / 4096 % 64 % 16 == 0
  {
    QuarterDigit(a * 256 + b);
    SixteenthDigit(a);
    assert (a * 65536 + b * 256) / 64 == (a * 256 + b) * 4;
    assert a * 65536 / 4096 == a * 16;
  }

  lemma SpareBits(a: byte, b: byte, c: byte)
    ensures c == 0 ==> Digit(Number(a, b, c), 2) % 4 == 0
    ensures b == 0 && c == 0 ==> Digit(Number(a, b, c), 1) % 16 == 0
  {
    SpareDigits(a as int, b as int);
  }

  lemma {:induction false} EncodingIsCanonical(bs: seq<byte>)
    ensures Canonical(Encode(bs))
  {
    hide Number, Group, CanonicalGroup;
    if bs == [] {
    } else if |bs| == 1 {
      GroupCanonical(bs[0], 0, 0, 2);
    } else if |bs| == 2 {
      GroupCanonical(bs[0], bs[1], 0, 3);
    } else {
      var first, rest := Group(Number(bs[0], bs[1], bs[2]), 4), Encode(bs[3..]);
      GroupCanonical(bs[0], bs[1], bs[2], 4);
      EncodingIsCanonical(bs[3..]);
      assert (first + rest)[..4] == first && (first + rest)[4..] == rest;
      if |bs| == 3 { assert rest == "" && first + rest == first; }
    }
  }

  /** Encoding what was decoded gives the text back exactly when the text is canonical. */
  lemma CanonicalExactly(s: string)
    requires NulFree(s) && s != ""
    ensures Encode(Decode(s)) == s <==> Canonical(s)
  {
    EncodingIsCanonical(Decode(s));
    if Canonical(s) {
      CanonicalIsEncoding(s);
      hide Encode, Decode;
      assert BytesOf(s) != [] by { NothingEncoded(); }
      RoundTrip(BytesOf(s));
    }
  }

  lemma NothingEncoded()
    ensures Encode([]) == ""
  {
  }

  // ----- the size of the output buffers

  /** `n * 4 / 3 + 4` always holds the text and its terminator, and is used up exactly when one byte is left over. */
  lemma EncoderBound(n: nat)
    ensures 4 * Groups(n) + 1 <= n * 4 / 3 + 4
    ensures 4 * Groups(n) + 1 == n * 4 / 3 + 4 <==> n % 3 == 1
  {
    GroupsIs(n);
  }

  /** The size that the comment of the second encoder gives, `n * 4 / 3 + 1`, holds the text and its
      terminator exactly when no byte is left over. */
  lemma DocumentedBound(n: nat)
    ensures 4 * Groups(n) + 1 <= n * 4 / 3 + 1 <==> n % 3 == 0
  {
    GroupsIs(n);
  }
}
