/** The gzip header skipper: how many bytes of a stream are header, and what reaches inflate when the
    stream arrives in pieces. */
module Gzip {
  import opened Bytes
  import opened JsonValue
  import opened Rfc1952

  const GZIP_MAGIC_0: byte := 0x1f
  const GZIP_MAGIC_1: byte := 0x8b
  const Z_DEFLATED: byte := 8

  // flag bits; the reserved ones are those from 0x20 on
  const HEAD_CRC: byte := 0x02
  const EXTRA_FIELD: byte := 0x04
  const ORIG_NAME: byte := 0x08
  const COMMENT: byte := 0x10
  const RESERVED_FROM: byte := 0x20

  predicate Flag(flags: byte, bit: byte)
    requires bit > 0
  {
    flags / bit % 2 == 1
  }

  // ----- check_gzip_header

  datatype Check = GzipOk(headerLen: nat) | GzipBad | GzipUnderflow

  /** Each part is skipped from position `i` on; `None` when the data end too early. */
  function SkipExtra(data: seq<byte>, i: nat): (r: Option<nat>)
    requires i <= |data|
    ensures r.Some? ==> i + 2 <= r.value <= |data|
  {
    if |data| - i < 2 then None
    else
      var extraLen := data[i + 1] as nat * 256 + data[i] as nat;
      if |data| - i < extraLen + 2 then None else Some(i + extraLen + 2)
  }

  function SkipText(data: seq<byte>, i: nat): (r: Option<nat>)
    requires i <= |data|
    ensures r.Some? ==> i < r.value <= |data|
    decreases |data| - i
  {
    if i == |data| then None
    else if data[i] == 0 then Some(i + 1)
    else SkipText(data, i + 1)
  }

  function SkipCrc(data: seq<byte>, i: nat): (r: Option<nat>)
    requires i <= |data|
    ensures r.Some? ==> r.value == i + 2 <= |data|
  {
    if |data| - i < 2 then None else Some(i + 2)
  }

  function CheckHeader(data: seq<byte>): (r: Check)
    ensures r.GzipOk? ==> 10 <= r.headerLen <= |data|
  {
    if |data| < 10 then GzipUnderflow
    else if data[0] != GZIP_MAGIC_0 || data[1] != GZIP_MAGIC_1 then GzipBad
    else if data[2] != Z_DEFLATED || data[3] >= RESERVED_FROM then GzipBad
    else
      var flags := data[3];
      var extra := if Flag(flags, EXTRA_FIELD) then SkipExtra(data, 10) else Some(10);
      if extra.None? then GzipUnderflow
      else
        var name := if Flag(flags, ORIG_NAME) then SkipText(data, extra.value) else extra;
        if name.None? then GzipUnderflow
        else
          var comment := if Flag(flags, COMMENT) then SkipText(data, name.value) else name;
          if comment.None? then GzipUnderflow
          else
            var crc := if Flag(flags, HEAD_CRC) then SkipCrc(data, comment.value) else comment;
            if crc.None? then GzipUnderflow else GzipOk(crc.value)
  }

  // ----- more data

  lemma {:induction false} SkipTextMore(data: seq<byte>, more: seq<byte>, i: nat)
    requires i <= |data|
    ensures SkipText(data, i).Some? ==> SkipText(data + more, i) == SkipText(data, i)
    ensures SkipText(data, i).None? && SkipText(data + more, i).Some? ==> SkipText(data + more, i).value > |data|
    decreases |data| - i
  {
    if i < |data| { SkipTextMore(data, more, i + 1); }
  }

  /** A decision stands when more data come, and a header that was incomplete reaches into the new data. */
  lemma MoreData(data: seq<byte>, more: seq<byte>)
    ensures !CheckHeader(data).GzipUnderflow? ==> CheckHeader(data + more) == CheckHeader(data)
    ensures CheckHeader(data).GzipUnderflow? && CheckHeader(data + more).GzipOk? ==>
      CheckHeader(data + more).headerLen > |data|
  {
    var all := data + more;
    if |data| >= 10 {
      assert forall i :: 0 <= i < |data| ==> all[i] == data[i];
      var flags := data[3];
      var extra := if Flag(flags, EXTRA_FIELD) then SkipExtra(data, 10) else Some(10);
      if extra.Some? {
        SkipTextMore(data, more, extra.value);
        var name := if Flag(flags, ORIG_NAME) then SkipText(data, extra.value) else extra;
        if name.Some? { SkipTextMore(data, more, name.value); }
      }
    }
  }

  // ----- the headers accepted are the headers of the standard

  lemma FlagsAre(flags: byte)
    ensures Flag(flags, EXTRA_FIELD) <==> HasExtra(flags)
    ensures Flag(flags, ORIG_NAME) <==> HasName(flags)
    ensures Flag(flags, COMMENT) <==> HasComment(flags)
    ensures Flag(flags, HEAD_CRC) <==> HasCrc(flags)
  {
  }

  lemma ExtraThere(data: seq<byte>, i: nat, x: Option<seq<byte>>, after: seq<byte>)
    requires i <= |data| && (x.Some? ==> |x.value| < 65536) && data[i..] == ExtraBytes(x) + after
    ensures var j := i + |ExtraBytes(x)|;
      j <= |data| && data[j..] == after && (if x.Some? then SkipExtra(data, i) else Some(i)) == Some(j)
  {
    var j := i + |ExtraBytes(x)|;
    assert data[j..] == data[i..][|ExtraBytes(x)|..];
    if x.Some? {
      assert data[i] == data[i..][0] && data[i + 1] == data[i..][1];
    }
  }

  lemma {:induction false} TextThere(data: seq<byte>, i: nat, x: Option<seq<byte>>, after: seq<byte>)
    requires i <= |data| && (x.Some? ==> ZeroFree(x.value)) && data[i..] == ZeroEnded(x) + after
    ensures var j := i + |ZeroEnded(x)|;
      j <= |data| && data[j..] == after && (if x.Some? then SkipText(data, i) else Some(i)) == Some(j)
    decreases |data| - i
  {
    var j := i + |ZeroEnded(x)|;
    assert data[j..] == data[i..][|ZeroEnded(x)|..];
    if x.Some? {
      assert data[i] == data[i..][0] == (x.value + [0])[0];
      if x.value != [] {
        assert data[i + 1..] == data[i..][1..];
        DropFirst(x.value, after);
        TextThere(data, i + 1, Some(x.value[1..]), after);
      }
    }
  }

  lemma DropFirst(t: seq<byte>, after: seq<byte>)
    requires t != []
    ensures ((t + [0]) + after)[1..] == (t[1..] + [0]) + after
  {
    assert (t + [0])[1..] == t[1..] + [0];
  }

  lemma FrontOf(h: Header, rest: seq<byte>)
    requires WellFormed(h)
    ensures var data := HeaderBytes(h) + rest;
      && |data| >= 10 && data[0] == 31 && data[1] == 139 && data[2] == 8 && data[3] == h.flags
      && data[10..] == ExtraBytes(h.extra) + (ZeroEnded(h.name) + (ZeroEnded(h.comment) + (CrcBytes(h.crc) + rest)))
  {
    hide ExtraBytes, ZeroEnded, CrcBytes, ZeroFree;
    var front := [31, 139, 8, h.flags] + h.fixed;
    var a, b, c, d := ExtraBytes(h.extra), ZeroEnded(h.name), ZeroEnded(h.comment), CrcBytes(h.crc);
    assert HeaderBytes(h) + rest == front + (a + (b + (c + (d + rest))));
    assert front[0] == 31 && front[1] == 139 && front[2] == 8 && front[3] == h.flags;
    hide HeaderBytes;
  }

  lemma CheckIs(data: seq<byte>, e: nat, n: nat, c: nat)
    requires |data| >= 10 && data[0] == 31 && data[1] == 139 && data[2] == 8 && data[3] < 32
    requires e <= n <= c <= |data|
    requires (if HasExtra(data[3]) then SkipExtra(data, 10) else Some(10)) == Some(e)
    requires (if HasName(data[3]) then SkipText(data, e) else Some(e)) == Some(n)
    requires (if HasComment(data[3]) then SkipText(data, n) else Some(n)) == Some(c)
    requires HasCrc(data[3]) ==> c + 2 <= |data|
    ensures CheckHeader(data) == GzipOk(if HasCrc(data[3]) then c + 2 else c)
  {
    FlagsAre(data[3]);
    hide SkipExtra, SkipText, Flag, HasExtra, HasName, HasComment, HasCrc;
  }

  lemma PartsSkipped(data: seq<byte>, h: Header, t1: seq<byte>, t2: seq<byte>, t3: seq<byte>, t4: seq<byte>)
    requires WellFormed(h) && |data| >= 10 && data[0] == 31 && data[1] == 139 && data[2] == 8 && data[3] == h.flags
    requires data[10..] == t1 && t1 == ExtraBytes(h.extra) + t2
    requires t2 == ZeroEnded(h.name) + t3 && t3 == ZeroEnded(h.comment) + t4 && |t4| >= |CrcBytes(h.crc)|
    ensures CheckHeader(data) ==
      GzipOk(10 + |ExtraBytes(h.extra)| + |ZeroEnded(h.name)| + |ZeroEnded(h.comment)| + |CrcBytes(h.crc)|)
  {
    hide CheckHeader, SkipExtra, SkipText, ExtraBytes, ZeroEnded, ZeroFree;
    hide HasExtra, HasName, HasComment, HasCrc;
    ExtraThere(data, 10, h.extra, t2);
    var e := 10 + |ExtraBytes(h.extra)|;
    TextThere(data, e, h.name, t3);
    var n := e + |ZeroEnded(h.name)|;
    TextThere(data, n, h.comment, t4);
    var c := n + |ZeroEnded(h.comment)|;
    assert |data[c..]| == |t4|;
    CheckIs(data, e, n, c);
  }

  /** Every header of the standard is skipped exactly, whatever follows. */
  lemma HeaderSkipped(h: Header, rest: seq<byte>)
    requires WellFormed(h)
    ensures CheckHeader(HeaderBytes(h) + rest) == GzipOk(|HeaderBytes(h)|)
  {
    FrontOf(h, rest);
    LengthOf(h);
    hide CheckHeader, ExtraBytes, ZeroEnded, CrcBytes, HeaderBytes, WellFormed;
    var t4 := CrcBytes(h.crc) + rest;
    var t3 := ZeroEnded(h.comment) + t4;
    var t2 := ZeroEnded(h.name) + t3;
    PartsSkipped(HeaderBytes(h) + rest, h, ExtraBytes(h.extra) + t2, t2, t3, t4);
  }

  lemma LengthOf(h: Header)
    requires WellFormed(h)
    ensures |HeaderBytes(h)| ==
      10 + |ExtraBytes(h.extra)| + |ZeroEnded(h.name)| + |ZeroEnded(h.comment)| + |CrcBytes(h.crc)|
  {
    hide ExtraBytes, ZeroEnded, CrcBytes, ZeroFree;
  }

  lemma ExtraShort(data: seq<byte>, i: nat, j: nat)
    requires i <= |data| && SkipExtra(data, i) == Some(j)
    ensures |data[i + 2..j]| < 65536
  {
  }

  lemma TextZeroFree(data: seq<byte>, i: nat, j: nat)
    requires i <= |data| && SkipText(data, i) == Some(j)
    ensures ZeroFree(data[i..j - 1])
  {
    TextSkipped(data, i, j);
  }

  /** What `SkipExtra` has skipped. */
  lemma ExtraSkipped(data: seq<byte>, i: nat, j: nat)
    requires i <= |data| && SkipExtra(data, i) == Some(j)
    ensures |data[i + 2..j]| < 65536 && data[i..j] == ExtraBytes(Some(data[i + 2..j]))
  {
    var n := j - i - 2;
    assert n % 256 == data[i] as int && n / 256 == data[i + 1] as int;
  }

  lemma {:induction false} TextSkipped(data: seq<byte>, i: nat, j: nat)
    requires i <= |data| && SkipText(data, i) == Some(j)
    ensures ZeroFree(data[i..j - 1]) && data[i..j] == ZeroEnded(Some(data[i..j - 1]))
    decreases |data| - i
  {
    if data[i] != 0 {
      TextSkipped(data, i + 1, j);
      assert forall k :: i < k < j - 1 ==> data[k] == data[i + 1..j - 1][k - i - 1];
      assert data[j - 1] == data[i + 1..j][j - i - 2];
    }
  }

  /** Where the parts of an accepted header end. */
  function ExtraEnd(data: seq<byte>): nat
    requires CheckHeader(data).GzipOk?
  {
    if Flag(data[3], EXTRA_FIELD) then SkipExtra(data, 10).value else 10
  }

  function NameEnd(data: seq<byte>): nat
    requires CheckHeader(data).GzipOk?
  {
    if Flag(data[3], ORIG_NAME) then SkipText(data, ExtraEnd(data)).value else ExtraEnd(data)
  }

  function CommentEnd(data: seq<byte>): nat
    requires CheckHeader(data).GzipOk?
  {
    if Flag(data[3], COMMENT) then SkipText(data, NameEnd(data)).value else NameEnd(data)
  }

  lemma PartsInOrder(data: seq<byte>)
    requires CheckHeader(data).GzipOk?
    ensures var e, n, c, z := ExtraEnd(data), NameEnd(data), CommentEnd(data), CheckHeader(data).headerLen;
      && 10 <= e <= n <= c <= z <= |data|
      && (if Flag(data[3], EXTRA_FIELD) then SkipExtra(data, 10) == Some(e) && e >= 12 else e == 10)
      && (if Flag(data[3], ORIG_NAME) then SkipText(data, e) == Some(n) && n > e else n == e)
      && (if Flag(data[3], COMMENT) then SkipText(data, n) == Some(c) && c > n else c == n)
      && z == (if Flag(data[3], HEAD_CRC) then c + 2 else c)
      && data[0] == GZIP_MAGIC_0 && data[1] == GZIP_MAGIC_1 && data[2] == Z_DEFLATED && data[3] < RESERVED_FROM
  {
  }

  /** The header in front of a stream: its parts lie between the positions where the skips stop. */
  function HeaderOf(data: seq<byte>): (h: Header)
    requires CheckHeader(data).GzipOk?
  {
    PartsInOrder(data);
    var flags, e, n, c := data[3], ExtraEnd(data), NameEnd(data), CommentEnd(data);
    Header(flags, data[4..10],
      if Flag(flags, EXTRA_FIELD) then Some(data[12..e]) else None,
      if Flag(flags, ORIG_NAME) then Some(data[e..n - 1]) else None,
      if Flag(flags, COMMENT) then Some(data[n..c - 1]) else None,
      if Flag(flags, HEAD_CRC) then Some(data[c..c + 2]) else None)
  }

  lemma Join(data: seq<byte>, i: nat, j: nat, k: nat)
    requires i <= j <= k <= |data|
    ensures data[i..j] + data[j..k] == data[i..k]
  {
  }

  lemma Pieces(data: seq<byte>, e: nat, n: nat, c: nat, z: nat)
    requires 10 <= e <= n <= c <= z <= |data|
    ensures data[..z] == data[..4] + data[4..10] + (data[10..e] + (data[e..n] + (data[n..c] + data[c..z])))
  {
    Join(data, n, c, z);
    Join(data, e, n, z);
    Join(data, 10, e, z);
    Join(data, 0, 4, 10);
    Join(data, 0, 10, z);
  }

  lemma PartsWellFormed(data: seq<byte>)
    requires CheckHeader(data).GzipOk?
    ensures WellFormed(HeaderOf(data))
  {
    PartsInOrder(data);
    hide CheckHeader, ExtraEnd, NameEnd, CommentEnd, SkipExtra, SkipText, ExtraBytes, ZeroEnded, ZeroFree, Flag;
    var e, n, c := ExtraEnd(data), NameEnd(data), CommentEnd(data);
    if Flag(data[3], EXTRA_FIELD) { ExtraShort(data, 10, e); }
    if Flag(data[3], ORIG_NAME) { TextZeroFree(data, e, n); }
    if Flag(data[3], COMMENT) { TextZeroFree(data, n, c); }
  }

  lemma FirstPartsAreBytes(data: seq<byte>)
    requires CheckHeader(data).GzipOk?
    ensures WellFormed(HeaderOf(data))
    ensures var e, n, h := ExtraEnd(data), NameEnd(data), HeaderOf(data);
      10 <= e <= n <= |data| && ExtraBytes(h.extra) == data[10..e] && ZeroEnded(h.name) == data[e..n]
  {
    PartsInOrder(data);
    PartsWellFormed(data);
    hide CheckHeader, ExtraEnd, NameEnd, CommentEnd, SkipExtra, SkipText, ExtraBytes, ZeroFree, Flag, WellFormed;
    var e, n := ExtraEnd(data), NameEnd(data);
    if Flag(data[3], EXTRA_FIELD) { ExtraSkipped(data, 10, e); } else { NoExtra(); }
    if Flag(data[3], ORIG_NAME) { TextSkipped(data, e, n); }
  }

  lemma FixedPartIsBytes(data: seq<byte>)
    requires CheckHeader(data).GzipOk?
    ensures data[..4] == [31, 139, 8, HeaderOf(data).flags] && HeaderOf(data).fixed == data[4..10]
  {
    PartsInOrder(data);
    hide CheckHeader, ExtraEnd, NameEnd, CommentEnd, Flag;
  }

  lemma LastPartsAreBytes(data: seq<byte>)
    requires CheckHeader(data).GzipOk?
    ensures var n, c, z, h := NameEnd(data), CommentEnd(data), CheckHeader(data).headerLen, HeaderOf(data);
      10 <= n <= c <= z <= |data| && ZeroEnded(h.comment) == data[n..c] && CrcBytes(h.crc) == data[c..z]
  {
    PartsInOrder(data);
    hide CheckHeader, ExtraEnd, NameEnd, CommentEnd, SkipExtra, SkipText, ExtraBytes, ZeroFree, Flag, WellFormed;
    if Flag(data[3], COMMENT) { TextSkipped(data, NameEnd(data), CommentEnd(data)); }
  }

  /** Whatever is skipped is a header of the standard. */
  lemma SkippedIsHeader(data: seq<byte>)
    requires CheckHeader(data).GzipOk?
    ensures WellFormed(HeaderOf(data)) && HeaderBytes(HeaderOf(data)) == data[..CheckHeader(data).headerLen]
  {
    FirstPartsAreBytes(data);
    LastPartsAreBytes(data);
    FixedPartIsBytes(data);
    Pieces(data, ExtraEnd(data), NameEnd(data), CommentEnd(data), CheckHeader(data).headerLen);
    hide CheckHeader, ExtraEnd, NameEnd, CommentEnd, HeaderOf, WellFormed, ExtraBytes, ZeroEnded, CrcBytes;
  }

  lemma NoExtra()
    ensures ExtraBytes(None) == []
  {
  }

  /** The skipper accepts a stream exactly when it begins with a header, and skips exactly that. */
  lemma AcceptsExactly(data: seq<byte>, n: nat)
    ensures CheckHeader(data) == GzipOk(n) <==>
      n <= |data| && exists h :: WellFormed(h) && HeaderBytes(h) == data[..n]
  {
    hide CheckHeader, HeaderOf, HeaderBytes, WellFormed;
    if CheckHeader(data) == GzipOk(n) {
      SkippedIsHeader(data);
    }
    if n <= |data| && exists h :: WellFormed(h) && HeaderBytes(h) == data[..n] {
      var h :| WellFormed(h) && HeaderBytes(h) == data[..n];
      HeaderSkipped(h, data[n..]);
      assert data[..n] + data[n..] == data;
    }
  }

  /** What is refused: ten bytes that do not begin as a header does. All other streams that do not begin with a
      header are too short. */
  lemma RefusesExactly(data: seq<byte>)
    ensures CheckHeader(data) == GzipBad <==> |data| >= 10 && !(data[..3] == [31, 139, 8] && data[3] < 32)
  {
    hide SkipExtra, SkipText, SkipCrc, Flag;
    if |data| >= 10 {
      assert data[..3] == [data[0], data[1], data[2]];
    }
  }

  lemma {:induction false} ZeroStops(data: seq<byte>, i: nat, p: nat)
    requires i <= p < |data| && data[p] == 0
    ensures SkipText(data, i).Some? && SkipText(data, i).value <= p + 1
    decreases |data| - i
  {
    if data[i] != 0 { ZeroStops(data, i + 1, p); }
  }

  lemma ZeroBehind(data: seq<byte>, i: nat, n: nat)
    requires n < |data| && i < |data| && forall k :: n <= k < |data| ==> data[k] == 0
    ensures SkipText(data, i).Some? && SkipText(data, i).value <= (if i < n then n else i) + 1
  {
    ZeroStops(data, i, if i < n then n else i);
  }

  /** An incomplete header can be completed, by zeros. */
  lemma UnderflowCompletes(data: seq<byte>) returns (more: seq<byte>)
    requires |data| >= 10 && CheckHeader(data) == GzipUnderflow
    ensures CheckHeader(data + more).GzipOk?
  {
    more := seq(70000, _ => 0);
    var all := data + more;
    RefusesExactly(data);
    RefusesExactly(all);
    assert all[..3] == data[..3] && all[3] == data[3];
    var extra := if Flag(all[3], EXTRA_FIELD) then SkipExtra(all, 10) else Some(10);
    assert extra.Some? && extra.value <= 65547;
    hide SkipText, SkipExtra, Flag;
    ZeroBehind(all, extra.value, |data|);
    var name := if Flag(all[3], ORIG_NAME) then SkipText(all, extra.value) else extra;
    ZeroBehind(all, name.value, |data|);
  }
}
