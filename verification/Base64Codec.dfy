/** The loops of the two base64 encoders and of the decoder, over their output buffers. Shifts and masks
    are written as divisions and remainders. */
module Base64Codec {
  import opened Bytes
  import opened JsonValue
  import opened Base64

  /** What the encoder takes as its input: a size of zero stands for a text that ends with a zero byte. */
  function Input(buf: seq<byte>, insize: nat): seq<byte>
    requires insize <= |buf|
  {
    if insize == 0 then UpToZero(buf) else buf[..insize]
  }

  function UpToZero(buf: seq<byte>): (r: seq<byte>)
    ensures |r| <= |buf| && r == buf[..|r|] && (forall i :: 0 <= i < |r| ==> r[i] != 0)
    ensures |r| < |buf| ==> buf[|r|] == 0
  {
    if buf == [] || buf[0] == 0 then [] else [buf[0]] + UpToZero(buf[1..])
  }

  lemma UpperDigits(a: int, b: int, c: int)
    requires 0 <= a < 256 && 0 <= b < 256 && 0 <= c < 256
    ensures var x := a * 65536 + b * 256 + c; x / 262144 == a / 4 && x / 4096 % 64 == a % 4 * 16 + b / 16
  {
    var x := a * 65536 + b * 256 + c;
    var m := a * 16 + b / 16;
    assert x == m * 4096 + (b % 16 * 256 + c);
    assert x / 4096 == m;
    assert m == a / 4 * 64 + (a % 4 * 16 + b / 16);
    assert m / 64 == a / 4 && m % 64 == a % 4 * 16 + b / 16;
    assert x / 262144 == x / 4096 / 64;
  }

  lemma LowerDigits(a: int, b: int, c: int)
    requires 0 <= a < 256 && 0 <= b < 256 && 0 <= c < 256
    ensures var x := a * 65536 + b * 256 + c; x / 64 % 64 == b % 16 * 4 + c / 64 && x % 64 == c % 64
  {
    var x := a * 65536 + b * 256 + c;
    var y := a * 1024 + b * 4 + c / 64;
    assert x == y * 64 + c % 64;
    assert y == (a * 16 + b / 16) * 64 + (b % 16 * 4 + c / 64);
  }

  /** The four table indices that the encoders compute are the digits of the group's number. */
  lemma DigitsOf(a: byte, b: byte, c: byte)
    ensures var x := Number(a, b, c);
      && Digit(x, 0) == (a / 4) as int
      && Digit(x, 1) == (a % 4) as int * 16 + (b / 16) as int
      && Digit(x, 2) == (b % 16) as int * 4 + (c / 64) as int
      && Digit(x, 3) == (c % 64) as int
  {
    UpperDigits(a as int, b as int, c as int);
    LowerDigits(a as int, b as int, c as int);
  }

  /** `snprintf(output, 5, "%c%c%c%c", …)`: four characters and the terminator. */
  method Put(output: array<char>, k: nat, s: string)
    requires |s| == 4 && k + 5 <= output.Length
    modifies output
    ensures output[..k + 4] == old(output[..k]) + s && output[k + 4] == NUL
  {
    output[k], output[k + 1], output[k + 2], output[k + 3], output[k + 4] := s[0], s[1], s[2], s[3], NUL;
    assert output[..k] == old(output[..k]);
  }

  /** The bytes of one group, with zeros behind the end of the input. */
  method ReadGroup(buf: array<byte>, j: nat, insize: nat) returns (ibuf: array<byte>, inputparts: nat)
    requires j + insize <= buf.Length && insize > 0
    ensures fresh(ibuf) && ibuf.Length == 3 && inputparts == if insize < 3 then insize else 3
    ensures forall i :: 0 <= i < 3 ==> ibuf[i] == if i < inputparts then buf[j + i] else 0
  {
    ibuf := new byte[3];
    inputparts := 0;
    var left := insize;
    for i := 0 to 3
      invariant inputparts == (if i < insize then i else insize) && left == insize - inputparts
      invariant forall m :: 0 <= m < i ==> ibuf[m] == if m < insize then buf[j + m] else 0
      invariant fresh(ibuf)
    {
      if left > 0 {
        ibuf[i] := buf[j + inputparts];
        inputparts := inputparts + 1;
        left := left - 1;
      } else {
        ibuf[i] := 0;
      }
    }
  }

  /** The text of one group, through the table. */
  method GroupText(ibuf: array<byte>, inputparts: nat) returns (s: string)
    requires ibuf.Length == 3 && 1 <= inputparts <= 3
    ensures s == Group(Number(ibuf[0], ibuf[1], ibuf[2]), inputparts + 1)
  {
    DigitsOf(ibuf[0], ibuf[1], ibuf[2]);
    hide Digit, Number, Char64, TABLE64;
    var o0 := (ibuf[0] / 4) as int;
    var o1 := (ibuf[0] % 4) as int * 16 + (ibuf[1] / 16) as int;
    var o2 := (ibuf[1] % 16) as int * 4 + (ibuf[2] / 64) as int;
    var o3 := (ibuf[2] % 64) as int;
    TableAt(o0);
    TableAt(o1);
    TableAt(o2);
    TableAt(o3);
    if inputparts == 1 {
      s := [TABLE64[o0], TABLE64[o1], '=', '='];
    } else if inputparts == 2 {
      s := [TABLE64[o0], TABLE64[o1], TABLE64[o2], '='];
    } else {
      s := [TABLE64[o0], TABLE64[o1], TABLE64[o2], TABLE64[o3]];
    }
  }

  /** One group of `Encode`, in the form of the loop. */
  lemma NextGroup(bs: seq<byte>, j: nat, b: byte, c: byte)
    requires j < |bs|
    requires b == (if j + 1 < |bs| then bs[j + 1] else 0) && c == (if j + 2 < |bs| then bs[j + 2] else 0)
    ensures var n := if |bs| - j < 3 then |bs| - j else 3;
      Encode(bs[j..]) == Group(Number(bs[j], b, c), n + 1) + Encode(bs[j + n..])
  {
    hide Group, Number;
    var rest := bs[j..];
    if |rest| >= 3 {
      assert rest[3..] == bs[j + 3..];
    } else {
      assert bs[j + |rest|..] == [] && Encode([]) == "";
      assert Encode(rest) + "" == Encode(rest);
    }
  }

  lemma {:induction false} ZeroInside(buf: seq<byte>)
    requires 0 in buf
    ensures |UpToZero(buf)| < |buf|
  {
    if buf[0] != 0 { ZeroInside(buf[1..]); }
  }

  /** `strlen` of the input. */
  method Length(buf: array<byte>) returns (n: nat)
    requires 0 in buf[..]
    ensures n <= buf.Length && n == |UpToZero(buf[..])|
  {
    ghost var text := UpToZero(buf[..]);
    ZeroInside(buf[..]);
    n := 0;
    while buf[n] != 0
      invariant n <= |text|
      decreases |text| - n
    {
      n := n + 1;
    }
  }

  lemma TextFits(bs: seq<byte>)
    ensures |Encode(bs)| + 1 <= |bs| * 4 / 3 + 4
  {
    EncoderBound(|bs|);
  }

  /** One turn of the loop: the next group of the input goes to position `k`. */
  method EncodeOne(buf: array<byte>, ghost bs: seq<byte>, j: nat, left: nat, output: array<char>, k: nat)
      returns (n: nat)
    requires |bs| <= buf.Length && bs == buf[..|bs|] && j + left == |bs| && left > 0
    requires |Encode(bs)| < output.Length && k < output.Length && output[..k] + Encode(bs[j..]) == Encode(bs)
    modifies output
    ensures 0 < n <= left && k + 4 < output.Length && output[..k + 4] + Encode(bs[j + n..]) == Encode(bs)
  {
    hide Encode, Group, Number;
    var ibuf, inputparts := ReadGroup(buf, j, left);
    n := inputparts;
    var s := GroupText(ibuf, n);
    NextGroup(bs, j, ibuf[1], ibuf[2]);
    OneMore(output[..k], s, Encode(bs[j + n..]), Encode(bs));
    Put(output, k, s);
  }

  /** The loop over the groups. */
  method EncodeAll(buf: array<byte>, insize: nat, output: array<char>) returns (k: nat)
    requires insize <= buf.Length && |Encode(buf[..insize])| < output.Length
    modifies output
    ensures k < output.Length && output[..k] == Encode(buf[..insize]) && output[k] == NUL
  {
    hide Encode, Group, Number, Groups;
    ghost var bs := buf[..insize];
    var j: nat, left: nat := 0, insize;
    k := 0;
    assert bs[0..] == bs;
    while left > 0
      invariant j + left == |bs| && k < output.Length
      invariant output[..k] + Encode(bs[j..]) == Encode(bs)
    {
      var n := EncodeOne(buf, bs, j, left, output, k);
      j, left, k := j + n, left - n, k + 4;
    }
    output[k] := NUL;
    NothingEncoded();
  }

  /** `Curl_base64_encode`: the text of the input, terminated, in a buffer of `insize * 4 / 3 + 4`. */
  method CurlEncode(buf: array<byte>, insize: nat) returns (output: array<char>, outLen: nat)
    requires insize <= buf.Length && (insize == 0 ==> 0 in buf[..])
    ensures fresh(output) && output.Length == |Input(buf[..], insize)| * 4 / 3 + 4
    ensures outLen < output.Length && output[outLen] == NUL && output[..outLen] == Encode(Input(buf[..], insize))
  {
    hide Encode, Groups;
    var left := insize;
    if left == 0 { left := Length(buf); }
    TextFits(Input(buf[..], insize));
    output := new char[left * 4 / 3 + 4];
    assert Input(buf[..], insize) == buf[..left];
    outLen := EncodeAll(buf, left, output);
  }

  lemma OneMore(done: string, s: string, rest: string, all: string)
    requires done + (s + rest) == all
    ensures (done + s) + rest == all && |done| + |s| <= |all|
  {
    assert (done + s) + rest == done + (s + rest);
  }

  // ----- the second encoder

  /** A byte read through a signed `char`. */
  function Signed(b: byte): (c: int)
    ensures -128 <= c < 128
  {
    if b < 128 then b as int else b as int - 256
  }

  /** On signed characters the masks behind the shifts leave the same digits. */
  lemma SignedDigits(u: byte, v: byte, w: byte)
    ensures var a, b, c := Signed(u), Signed(v), Signed(w); var x := Number(u, v, w);
      && a / 4 % 64 == Digit(x, 0)
      && a * 16 % 64 / 16 * 16 + b / 16 % 16 == Digit(x, 1)
      && b * 4 % 64 / 4 * 4 + c / 64 % 4 == Digit(x, 2)
      && c % 64 == Digit(x, 3)
  {
    DigitsOf(u, v, w);
    hide Digit, Number;
    SignedByte(u as int, Signed(u));
    SignedByte(v as int, Signed(v));
    SignedByte(w as int, Signed(w));
  }

  lemma SignedByte(u: int, a: int)
    requires 0 <= u < 256 && (a == u || a == u - 256)
    ensures a / 4 % 64 == u / 4 && a * 16 % 64 / 16 * 16 == u % 4 * 16
    ensures a / 16 % 16 == u / 16 && a * 4 % 64 / 4 * 4 == u % 16 * 4
    ensures a / 64 % 4 == u / 64 && a % 64 == u % 64
  {
    SameRemainders(a, u);
    ShiftBy4(a);
    ShiftBy2(a);
    if a != u {
      assert a / 4 == u / 4 - 64 && a / 16 == u / 16 - 16 && a / 64 == u / 64 - 4;
    }
  }

  lemma SameRemainders(a: int, u: int)
    requires 0 <= u < 256 && (a == u || a == u - 256)
    ensures a % 4 == u % 4 && a % 16 == u % 16 && a % 64 == u % 64
  {
  }

  lemma ShiftBy4(a: int)
    ensures a * 16 % 64 / 16 * 16 == a % 4 * 16
  {
    assert a * 16 == a / 4 * 64 + a % 4 * 16;
    assert a * 16 % 64 == a % 4 * 16;
  }

  lemma ShiftBy2(a: int)
    ensures a * 4 % 64 / 4 * 4 == a % 16 * 4
  {
    assert a * 4 == a / 16 * 64 + a % 16 * 4;
    assert a * 4 % 64 == a % 16 * 4;
  }

  /** `_mwBase64Encode`: the same text as the first encoder, in a buffer that has room for it. */
  method MwEncode(buf: array<byte>, inLen: int, output: array<char>)
    requires inLen <= buf.Length && output.Length >= if inLen > 0 then 4 * Groups(inLen) + 1 else 1
    modifies output
    ensures inLen > 0 ==> var text := Encode(buf[..inLen]);
      |text| < output.Length && output[..|text|] == text && output[|text|] == NUL
    ensures inLen <= 0 ==> output[0] == NUL && output[1..] == old(output[1..])
  {
    output[0] := NUL;
    if inLen <= 0 { return; }
    ghost var bs := buf[..inLen];
    var i: nat, k: nat := 0, 0;
    assert bs[0..] == bs && |Encode(bs)| < output.Length;
    hide Encode, Group, Number;
    while i < inLen
      invariant k < output.Length && (i < inLen ==> output[..k] + Encode(bs[i..]) == Encode(bs))
      invariant i >= inLen ==> output[..k] == Encode(bs)
    {
      k := MwGroup(buf, inLen, bs, i, output, k);
      i := i + 3;
    }
    output[k] := NUL;
  }

  /** One turn of its loop. */
  method MwGroup(buf: array<byte>, inLen: nat, ghost bs: seq<byte>, i: nat, output: array<char>, k: nat)
      returns (k': nat)
    requires inLen == |bs| <= buf.Length && bs == buf[..inLen] && i < inLen
    requires |Encode(bs)| < output.Length && k < output.Length && output[..k] + Encode(bs[i..]) == Encode(bs)
    modifies output
    ensures k' < output.Length
    ensures if i + 3 < |bs| then output[..k'] + Encode(bs[i + 3..]) == Encode(bs) else output[..k'] == Encode(bs)
  {
    hide Encode, Number, Char64, TABLE64, Digit;
    var u := buf[i];
    var v, w := if i + 1 >= inLen then 0 else buf[i + 1], if i + 2 >= inLen then 0 else buf[i + 2];
    SignedDigits(u, v, w);
    NextGroup(bs, i, v, w);
    var a, b, c := Signed(u), Signed(v), Signed(w);
    var d0, d1, d2, d3 := a / 4 % 64, a * 16 % 64 / 16 * 16 + b / 16 % 16, b * 4 % 64 / 4 * 4 + c / 64 % 4, c % 64;
    TableAt(d0);
    TableAt(d1);
    TableAt(d2);
    TableAt(d3);
    var s := [TABLE64[d0], TABLE64[d1], '=', '='];
    if i + 2 < inLen {
      s := [TABLE64[d0], TABLE64[d1], TABLE64[d2], TABLE64[d3]];
    } else if i + 1 < inLen {
      s := [TABLE64[d0], TABLE64[d1], TABLE64[d2], '='];
    }
    ghost var n := if inLen - i < 3 then inLen - i else 3;
    OneMore(output[..k], s, Encode(bs[i + n..]), Encode(bs));
    output[k], output[k + 1], output[k + 2], output[k + 3] := s[0], s[1], s[2], s[3];
    k' := k + 4;
    assert output[..k'] == old(output[..k]) + s;
    if i + 3 >= inLen {
      assert bs[i + n..] == [];
      NothingEncoded();
    }
  }

  // ----- the decoder

  /** The search in the table: it stops at the digit, or at the table's terminator. */
  method FindDigit(c: char) returns (v: nat)
    ensures v == match Value64(c) case Some(d) => d case None => 64
  {
    v := 0;
    while v < 64 && TABLE64[v] != c
      invariant v <= 64 && forall i :: 0 <= i < v ==> Char64(i) != c
    {
      TableAt(v);
      v := v + 1;
    }
    if v < 64 {
      TableAt(v);
      ValueOfChar(v);
    }
  }

  /** `decodeQuantum` on the four characters at `src[at..]`. */
  method DecodeQuantum(dest: array<byte>, k: nat, src: string, at: nat)
    requires at + 4 <= |src| && k + 3 <= dest.Length
    modifies dest
    ensures dest[k..k + 3] == Quantum(src[at..])
    ensures forall i :: 0 <= i < dest.Length && !(k <= i < k + 3) ==> dest[i] == old(dest[i])
  {
    var x: nat := 0;
    for i := 0 to 4
      invariant x == ShiftFirst(src[at..], i) && dest[..] == old(dest[..])
    {
      var c := src[at + i];
      var v := FindDigit(c);
      if v < 64 || c == NUL {
        x := x * 64 + v;
      } else if c == '=' {
        x := x * 64;
      }
    }
    AllFour(src[at..]);
    Bytes3(x);
    hide Shift;
    dest[k + 2] := (x % 256) as byte;
    x := x / 256;
    dest[k + 1] := (x % 256) as byte;
    x := x / 256;
    dest[k] := (x % 256) as byte;
  }

  lemma Bytes3(x: nat)
    ensures x / 256 / 256 == x / 65536
  {
  }

  lemma AllFour(s: string)
    requires |s| >= 4
    ensures ShiftFirst(s, 4) == Shift4(s)
  {
    hide Shift;
    assert ShiftFirst(s, 1) == Shift(0, s[0]);
    assert ShiftFirst(s, 2) == Shift(ShiftFirst(s, 1), s[1]);
    assert ShiftFirst(s, 3) == Shift(ShiftFirst(s, 2), s[2]);
  }

  /** The number after the first `n` characters. */
  function ShiftFirst(s: string, n: nat): nat
    requires n <= |s|
  {
    if n == 0 then 0 else Shift(ShiftFirst(s, n - 1), s[n - 1])
  }

  lemma {:induction false} QuantumOf(s: string, n: nat, i: nat)
    requires i < n && 4 * n <= |s|
    ensures Quanta(s, n)[3 * i..3 * i + 3] == Quantum(s[4 * i..])
    decreases n
  {
    hide Quantum;
    if i == 0 {
      assert s[0..] == s;
    } else {
      QuantumOf(s[4..], n - 1, i - 1);
      assert s[4..][4 * (i - 1)..] == s[4 * i..];
      assert Quanta(s, n)[3 * i..3 * i + 3] == Quanta(s[4..], n - 1)[3 * (i - 1)..3 * (i - 1) + 3];
    }
  }

  /** The characters in front of the padding, and the `=` signs that count. */
  method Measure(src: string) returns (length: nat, equalsTerm: nat)
    ensures length == Plain(src) && equalsTerm == Padding(src)
  {
    length := 0;
    while length < |src| && src[length] != '='
      invariant length <= Plain(src)
    {
      length := length + 1;
    }
    equalsTerm := 0;
    if length < |src| {
      equalsTerm := equalsTerm + 1;
      if length + 1 < |src| && src[length + 1] == '=' { equalsTerm := equalsTerm + 1; }
    }
  }

  /** Every group but the last one goes straight to the buffer. */
  method DecodeAllButLast(src: string, numQuantums: nat, out: array<byte>)
    requires 0 < numQuantums && 4 * numQuantums <= |src| && 3 * (numQuantums - 1) <= out.Length
    modifies out
    ensures out[..3 * (numQuantums - 1)] == Quanta(src, numQuantums)[..3 * (numQuantums - 1)]
  {
    hide Quanta, Quantum;
    var at: nat, k: nat := 0, 0;
    ghost var all := Quanta(src, numQuantums);
    for i := 0 to numQuantums - 1
      invariant at == 4 * i && k == 3 * i
      invariant out[..k] == all[..k]
    {
      QuantumOf(src, numQuantums, i);
      DecodeQuantum(out, k, src, at);
      assert out[..k + 3] == out[..k] + out[k..k + 3] == all[..k + 3];
      at, k := at + 4, k + 3;
    }
  }

  /** The last group goes through a buffer of its own, without the bytes that are padding. */
  method DecodeLast(src: string, numQuantums: nat, out: array<byte>, equalsTerm: nat)
    requires 0 < numQuantums && 4 * numQuantums <= |src| && equalsTerm <= 2 &&
      out.Length == 3 * numQuantums - equalsTerm + 4
    requires out[..3 * (numQuantums - 1)] == Quanta(src, numQuantums)[..3 * (numQuantums - 1)]
    modifies out
    ensures out[..3 * numQuantums - equalsTerm] == Quanta(src, numQuantums)[..3 * numQuantums - equalsTerm]
    ensures out[3 * numQuantums - equalsTerm] == 0
  {
    hide Quanta, Quantum;
    ghost var all := Quanta(src, numQuantums);
    var k := 3 * (numQuantums - 1);
    var lastQuantum := new byte[3];
    QuantumOf(src, numQuantums, numQuantums - 1);
    DecodeQuantum(lastQuantum, 0, src, 4 * (numQuantums - 1));
    ghost var last := lastQuantum[..];
    assert last == lastQuantum[0..3] == all[k..k + 3];
    var i := 0;
    while i < 3 - equalsTerm
      invariant i <= 3 - equalsTerm && lastQuantum[..] == last
      invariant out[..k + i] == all[..k + i]
    {
      assert lastQuantum[i] == last[i] == all[k + i];
      out[k + i] := lastQuantum[i];
      i := i + 1;
    }
    out[k + i] := 0;
  }

  /** `Curl_base64_decode`: the bytes in a buffer of `outLen + 4`, or nothing when there are none. Only
      characters of the source are read. */
  method CurlDecode(src: string) returns (out: array?<byte>, outLen: nat)
    requires NulFree(src)
    ensures out == null <==> Decode(src) == []
    ensures if out == null then outLen == 0 else
      fresh(out) && out.Length == outLen + 4 && out[..outLen] == Decode(src) && out[outLen] == 0
  {
    hide Quanta, Plain, Padding;
    var length, equalsTerm := Measure(src);
    var numQuantums := (length + equalsTerm) / 4;
    if numQuantums == 0 { return null, 0; }
    outLen := numQuantums * 3 - equalsTerm;
    var newstr := new byte[outLen + 4];
    DecodeAllButLast(src, numQuantums, newstr);
    DecodeLast(src, numQuantums, newstr, equalsTerm);
    out := newstr;
  }
}
