/** What the base64 decoder makes of any text: characters outside the alphabet, padding in the middle or left out. */
module Base64Texts {
  import opened Bytes
  import opened JsonValue
  import opened Base64

  /** The value of a character in ASCII codes; padding counts as zero, and other characters have none. */
  function Worth(c: char): Option<int> {
    var n := c as int;
    if 65 <= n <= 90 then Some(n - 65)
    else if 97 <= n <= 122 then Some(n - 71)
    else if 48 <= n <= 57 then Some(n + 4)
    else if n == 43 then Some(62)
    else if n == 47 then Some(63)
    else if n == 61 then Some(0)
    else None
  }

  function Worths(s: string): seq<int> {
    if s == "" then []
    else (match Worth(s[0]) case Some(v) => [v] case None => []) + Worths(s[1..])
  }

  function Positional(ds: seq<int>): int {
    if ds == [] then 0 else Positional(ds[..|ds| - 1]) * 64 + ds[|ds| - 1]
  }

  lemma {:induction false} PositionalNext(ds: seq<int>, d: int)
    ensures Positional(ds + [d]) == Positional(ds) * 64 + d
  {
    assert (ds + [d])[..|ds|] == ds;
  }

  lemma WorthIs(c: char)
    ensures Worth(c) == if c == '=' then Some(0) else Value64(c)
  {
  }

  lemma WorthsOfOne(c: char)
    ensures Worths([c]) == match Worth(c) case Some(v) => [v] case None => []
  {
    hide Worth;
    assert [c][1..] == [] && Worths([]) == [];
  }

  lemma ShiftIs(x: nat, ds: seq<int>, c: char)
    requires x == Positional(ds) && c != NUL
    ensures Shift(x, c) == Positional(ds + Worths([c]))
  {
    WorthIs(c);
    WorthsOfOne(c);
    hide Worth, Value64, Worths, Positional;
    if Worth(c).Some? {
      PositionalNext(ds, Worth(c).value);
    } else {
      assert ds + [] == ds;
    }
  }

  lemma WorthsOfFour(s: string)
    requires |s| == 4
    ensures Worths(s) == Worths([s[0]]) + Worths([s[1]]) + Worths([s[2]]) + Worths([s[3]])
  {
    WorthsFirst(s);
    WorthsFirst(s[1..]);
    WorthsFirst(s[2..]);
    hide Worths;
    assert s[1..][1..] == s[2..] && s[2..][1..] == s[3..] && s[3..] == [s[3]];
  }

  lemma WorthsFirst(s: string)
    requires s != ""
    ensures Worths(s) == Worths([s[0]]) + Worths(s[1..])
  {
    hide Worth;
    assert [s[0]][1..] == [] && Worths([]) == [];
  }

  /** Byte `k` of the number that a group of four characters stands for, without its foreign characters. */
  function GroupByte(s: string, k: nat): int
    requires k < 3
  {
    var x := Positional(Worths(s));
    match k
    case 0 => x / 65536 % 256
    case 1 => x / 256 % 256
    case _ => x % 256
  }

  lemma QuantumIs(s: string)
    requires |s| >= 4 && NulFree(s[..4])
    ensures forall k :: 0 <= k < 3 ==> Quantum(s)[k] as int == GroupByte(s[..4], k)
  {
    var t := s[..4];
    assert t[0] in t && t[1] in t && t[2] in t && t[3] in t;
    assert Positional([]) == 0 && [] + Worths([t[0]]) == Worths([t[0]]);
    hide Shift, Worths, Positional;
    var d1 := Worths([t[0]]);
    var d2 := d1 + Worths([t[1]]);
    var d3 := d2 + Worths([t[2]]);
    ShiftIs(0, [], t[0]);
    ShiftIs(Positional(d1), d1, t[1]);
    ShiftIs(Positional(d2), d2, t[2]);
    ShiftIs(Positional(d3), d3, t[3]);
    WorthsOfFour(t);
  }

  /** Byte `k` of a text, if it has that many groups. */
  function ByteAt(s: string, k: nat): int
    requires k / 3 * 4 + 4 <= |s|
  {
    GroupByte(s[k / 3 * 4..k / 3 * 4 + 4], k % 3)
  }

  lemma InGroups(k: nat, n: nat)
    requires k < 3 * n
    ensures k / 3 * 4 + 4 <= 4 * n
  {
  }

  lemma ByteBehind(s: string, k: nat)
    requires k >= 3 && k / 3 * 4 + 4 <= |s|
    ensures (k - 3) / 3 * 4 + 4 <= |s[4..]| && ByteAt(s[4..], k - 3) == ByteAt(s, k)
  {
    var i := k / 3 * 4;
    assert (k - 3) / 3 == k / 3 - 1 && (k - 3) % 3 == k % 3;
    assert s[4..][i - 4..i] == s[i..i + 4];
    hide GroupByte;
  }

  lemma {:induction false} QuantaAt(s: string, n: nat, k: nat)
    requires |s| >= 4 * n && NulFree(s) && k < 3 * n
    ensures k / 3 * 4 + 4 <= |s| && Quanta(s, n)[k] as int == ByteAt(s, k)
    decreases n
  {
    hide Quantum, GroupByte;
    InGroups(k, n);
    assert Quanta(s, n) == Quantum(s) + Quanta(s[4..], n - 1);
    if k < 3 {
      assert forall c :: c in s[..4] ==> c in s;
      QuantumIs(s);
      assert k / 3 == 0 && s[0..4] == s[..4];
    } else {
      assert forall c :: c in s[4..] ==> c in s;
      QuantaAt(s[4..], n - 1, k - 3);
      ByteBehind(s, k);
      hide ByteAt;
    }
  }

  /** The `=` signs that count behind the first `text` characters. */
  function Signs(s: string, text: nat): nat {
    if text >= |s| then 0 else if text + 1 < |s| && s[text + 1] == '=' then 2 else 1
  }

  /** For every text: `text` are the characters in front of the first `=`, and of the signs there at most two count.
      Each group of four of these characters gives three bytes, what is left over gives nothing, and as many bytes
      are cut off as signs were counted. */
  lemma DecodesExactly(s: string, text: nat)
    requires NulFree(s) && text <= |s| && (forall i :: 0 <= i < text ==> s[i] != '=') && (text < |s| ==> s[text] == '=')
    ensures var groups := (text + Signs(s, text)) / 4;
      |Decode(s)| == if groups == 0 then 0 else 3 * groups - Signs(s, text)
    ensures forall k :: 0 <= k < |Decode(s)| ==> k / 3 * 4 + 4 <= |s| && Decode(s)[k] as int == ByteAt(s, k)
  {
    PlainIs(s, text);
    assert Padding(s) == Signs(s, text);
    hide Plain, ByteAt, Quanta, Padding, Signs;
    var groups := (text + Padding(s)) / 4;
    forall k | 0 <= k < |Decode(s)| ensures k / 3 * 4 + 4 <= |s| && Decode(s)[k] as int == ByteAt(s, k) {
      QuantaAt(s, groups, k);
    }
  }

  lemma SameByte(s: string, t: string, k: nat)
    requires t <= s && k / 3 * 4 + 4 <= |t|
    ensures ByteAt(s, k) == ByteAt(t, k)
  {
    assert t[k / 3 * 4..k / 3 * 4 + 4] == s[k / 3 * 4..k / 3 * 4 + 4];
    hide GroupByte;
  }

  lemma NoSigns(s: string)
    requires NulFree(s) && forall i :: 0 <= i < |s| ==> s[i] != '='
    ensures |Decode(s)| == 3 * (|s| / 4)
    ensures forall k :: 0 <= k < |Decode(s)| ==> k / 3 * 4 + 4 <= |s| && Decode(s)[k] as int == ByteAt(s, k)
  {
    DecodesExactly(s, |s|);
  }

  /** Without padding only whole groups count. */
  lemma WholeGroups(s: string, t: string, groups: nat)
    requires NulFree(s) && t <= s && |t| == 4 * groups <= |s| < 4 * groups + 4
    requires forall i :: 0 <= i < |s| ==> s[i] != '='
    ensures NulFree(t) && Decode(s) == Decode(t)
  {
    hide Decode, ByteAt;
    PrefixNulFree(s, t);
    NoSigns(s);
    NoSigns(t);
    assert |s| / 4 == groups && |t| / 4 == groups;
    SameBytes(s, t);
  }

  lemma PrefixNulFree(s: string, t: string)
    requires NulFree(s) && t <= s
    ensures NulFree(t)
  {
    assert forall c :: c in t ==> c in s;
  }

  lemma SameBytes(s: string, t: string)
    requires NulFree(s) && NulFree(t) && t <= s && |Decode(s)| == |Decode(t)|
    requires forall k :: 0 <= k < |Decode(s)| ==> k / 3 * 4 + 4 <= |s| && Decode(s)[k] as int == ByteAt(s, k)
    requires forall k :: 0 <= k < |Decode(t)| ==> k / 3 * 4 + 4 <= |t| && Decode(t)[k] as int == ByteAt(t, k)
    ensures Decode(s) == Decode(t)
  {
    hide Decode, ByteAt;
    forall k | 0 <= k < |Decode(s)| ensures Decode(s)[k] == Decode(t)[k] {
      assert k / 3 * 4 + 4 <= |t|;
      SameByte(s, t, k);
    }
  }

  lemma {:induction false} EncodeTogether(a: seq<byte>, b: seq<byte>)
    requires |a| % 3 == 0
    ensures Encode(a + b) == Encode(a) + Encode(b)
    decreases |a|
  {
    hide Number, Group;
    if a == [] {
      assert a + b == b;
    } else {
      assert (a + b)[3..] == a[3..] + b;
      EncodeTogether(a[3..], b);
    }
  }

  /** An encoding whose padding is left out loses the bytes of its last group: all but the first `n`. */
  lemma PaddingLeftOut(bs: seq<byte>, n: nat)
    requires n % 3 == 0 && n <= |bs| && 0 < |bs| - n < 3
    ensures var text := Encode(bs)[..|Encode(bs)| - Pad(|bs|)];
      NulFree(text) && Decode(text) == bs[..n]
  {
    hide Encode, Decode;
    Stripped(bs);
    LastGroupAlone(bs, n);
    hide Groups, Pad;
    var text := Encode(bs)[..|Encode(bs)| - Pad(|bs|)];
    WholeGroups(text, Encode(bs[..n]), Groups(n));
    if n == 0 { NothingDecoded(); } else { RoundTrip(bs[..n]); }
  }

  lemma Stripped(bs: seq<byte>)
    ensures Pad(|bs|) <= |Encode(bs)|
    ensures var text := Encode(bs)[..|Encode(bs)| - Pad(|bs|)];
      NulFree(text) && forall i :: 0 <= i < |text| ==> text[i] != '='
  {
    EncodePadded(bs);
    PrefixNulFree(Encode(bs), Encode(bs)[..|Encode(bs)| - Pad(|bs|)]);
    hide Encode, Pad;
  }

  lemma LastGroupAlone(bs: seq<byte>, n: nat)
    requires n % 3 == 0 && n <= |bs| && 0 < |bs| - n < 3
    ensures var text := Encode(bs)[..|Encode(bs)| - Pad(|bs|)];
      Encode(bs[..n]) <= text && 4 * Groups(n) <= |text| < 4 * Groups(n) + 4
  {
    var a, b := bs[..n], bs[n..];
    assert bs == a + b;
    EncodeTogether(a, b);
    GroupsIs(n);
    GroupsIs(|b|);
    GroupsIs(|bs|);
    hide Encode;
  }

  lemma NothingDecoded()
    ensures Encode([]) == "" && Decode("") == []
  {
  }
}
